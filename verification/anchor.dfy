/** The Anchor custom-error convention and the user-facing code parser
    (`src/decoder/anchor.rs`). Codes from 6000 up are a program's own errors;
    the variant index is the code minus 6000. */
module Anchor {
  import opened Wrappers
  import opened Text
  import opened Numerals
  import opened Output

  const ANCHOR_ERROR_OFFSET: u32 := 6000

  /** Whether a code is one of a program's own errors rather than one of the
      framework's. */
  function IsAnchorCustomError(code: u32): (r: bool)
    ensures r <==> code >= ANCHOR_ERROR_OFFSET
  {
    code >= ANCHOR_ERROR_OFFSET
  }

  /** The cases of `test_is_anchor_custom` in `src/decoder/anchor.rs`, and the
      last code below the offset. */
  lemma AnchorCustomThreshold()
    ensures IsAnchorCustomError(6000) && IsAnchorCustomError(6001)
    ensures !IsAnchorCustomError(2000) && !IsAnchorCustomError(5999)
  {
  }

  /** The name given to a custom error with this variant index. */
  function CustomErrorName(index: nat): string {
    "CustomError[" + DecimalString(index) + "]"
  }

  function CustomErrorMessage(index: nat): string {
    "Custom program error at variant index " + DecimalString(index)
  }

  /** The names of variant 1, the index code 6001 (`0x1771`) maps to. */
  lemma CustomNamesOfVariant1()
    ensures CustomErrorName(1) == "CustomError[1]"
    ensures CustomErrorMessage(1) == "Custom program error at variant index 1"
  {
    assert DecimalString(1) == "1";
  }

  /** `decode_anchor_custom`. The Rust code subtracts the offset in `u32`, which
      cannot go below zero, so it is only called with a custom code. */
  function DecodeAnchorCustom(code: u32): (r: DecodedError)
    requires IsAnchorCustomError(code)
    ensures WellFormed(r) && r.errorCode == code
    ensures r.programId == [] && r.sourceFile.None? && r.sourceLine.None? && r.cpiDepth.None?
    ensures r.errorName == Some(CustomErrorName(code - ANCHOR_ERROR_OFFSET))
    ensures r.errorMessage == Some(CustomErrorMessage(code - ANCHOR_ERROR_OFFSET))
  {
    var variantIndex := code - ANCHOR_ERROR_OFFSET;
    WithMessage(WithName(New(code), CustomErrorName(variantIndex)), CustomErrorMessage(variantIndex))
  }

  /** The failure `parse_error_code` reports. */
  datatype CodeError = MalformedCode

  /** `parse_error_code`: trim, then base 16 after a literal `0x` prefix,
      otherwise base 10; either way the value must fit in 32 bits. */
  function ParseErrorCode(input: string): (r: Result<u32, CodeError>)
    ensures r.Ok? <==> IsCodeToken(Trim(input))
    ensures r.Ok? ==> r.value == ValueOf(CodeDigits(Trim(input)), CodeRadix(Trim(input)))
    ensures Trim(input) == [] ==> r.Err?
    ensures Trim(input) == "0x" ==> r.Err?
  {
    ParseTrimmedCode(Trim(input))
  }

  /** The radix a trimmed token is read in: base 16 exactly when it starts
      with `0x`. */
  function CodeRadix(token: string): Radix {
    if HasPrefix(token, "0x") then Hexadecimal else Decimal
  }

  /** The digits of a trimmed token: what follows the `0x` prefix, if any,
      and then the one optional `+`. */
  function CodeDigits(token: string): string {
    Unsigned(if HasPrefix(token, "0x") then token[2..] else token)
  }

  /** A trimmed token that denotes a code: one or more digits of its radix
      whose value fits in 32 bits. */
  predicate IsCodeToken(token: string) {
    var d := CodeDigits(token);
    |d| > 0 && AllIn(d, CodeRadix(token).DigitClass()) && ValueOf(d, CodeRadix(token)) < U32_LIMIT
  }

  /** The part of `parse_error_code` after the trim. */
  function ParseTrimmedCode(token: string): (r: Result<u32, CodeError>)
    ensures r.Ok? <==> IsCodeToken(token)
    ensures r.Ok? ==> r.value == ValueOf(CodeDigits(token), CodeRadix(token))
    ensures token == [] ==> r.Err?
    ensures token == "0x" ==> r.Err?
  {
    var parsed := match StripPrefix(token, "0x")
      case Some(hex) => ParseUnsigned(hex, Hexadecimal, U32_LIMIT)
      case None => ParseUnsigned(token, Decimal, U32_LIMIT);
    match parsed
    case Some(v) => Ok(v)
    case None => Err(MalformedCode)
  }

  /** A decimal numeral never takes the hex branch. */
  lemma DigitsLackHexPrefix(dec: string)
    requires |dec| > 0 && AllIn(dec, Digit)
    ensures StripPrefix(dec, "0x").None?
  {
    if |dec| >= 2 {
      assert InClass(dec[1], Digit);
      assert dec[..2][1] == dec[1];
    }
  }

  /** A run of digits is parsed as it stands: trimming leaves it alone. */
  lemma DigitsUntrimmed(dec: string)
    requires |dec| > 0 && AllIn(dec, Digit)
    ensures ParseErrorCode(dec) == ParseTrimmedCode(dec)
  {
    assert InClass(dec[0], Digit) && InClass(dec[|dec| - 1], Digit);
    TrimUnpadded(dec);
  }

  lemma HexTokenUntrimmed(hex: string)
    requires |hex| > 0 && AllIn(hex, HexDigit)
    ensures ParseErrorCode("0x" + hex) == ParseTrimmedCode("0x" + hex)
  {
    var token := "0x" + hex;
    assert token[0] == '0';
    assert token[|token| - 1] == hex[|hex| - 1];
    assert InClass(hex[|hex| - 1], HexDigit);
    TrimUnpadded(token);
  }

  /** `0x` plus the lower-case hex of a code parses back to the code. */
  lemma ParseHexRoundTrip(code: u32)
    ensures ParseErrorCode("0x" + HexString(code)) == Ok(code)
  {
    var hex := HexString(code);
    HexTokenUntrimmed(hex);
    StripPrefixOfConcat("0x", hex);
    ParseRender(code, Hexadecimal, U32_LIMIT);
  }

  /** The decimal rendering of a code parses back to the code. */
  lemma ParseDecimalRoundTrip(code: u32)
    ensures ParseErrorCode(DecimalString(code)) == Ok(code)
  {
    var dec := DecimalString(code);
    DigitsUntrimmed(dec);
    DigitsLackHexPrefix(dec);
    ParseRender(code, Decimal, U32_LIMIT);
  }

  /** White space around a token does not change what it parses to. */
  lemma ParseIgnoresPadding(lead: string, token: string, trail: string)
    requires AllIn(lead, Whitespace) && AllIn(trail, Whitespace)
    requires |token| == 0 || (!IsWhitespace(token[0]) && !IsWhitespace(token[|token| - 1]))
    ensures ParseErrorCode(lead + token + trail) == ParseErrorCode(token)
  {
    var padded := lead + token + trail;
    TrimPadded(lead, token, trail);
    assert Trim(padded) == token;
    TrimPadded([], token, []);
    assert [] + token + [] == token;
    assert Trim(token) == token;
    calc {
      ParseErrorCode(padded);
      ParseTrimmedCode(Trim(padded));
      ParseTrimmedCode(Trim(token));
      ParseErrorCode(token);
    }
  }

  /** A number past `u32::MAX` is refused in decimal ... */
  lemma ParseRejectsDecimalOverflow(n: nat)
    requires n >= U32_LIMIT
    ensures ParseErrorCode(DecimalString(n)).Err?
  {
    var dec := DecimalString(n);
    ValueOfRender(n, Decimal);
    DigitsUntrimmed(dec);
    DigitsLackHexPrefix(dec);
    ParseDigits(dec, Decimal, U32_LIMIT);
  }

  /** ... and in hex. */
  lemma ParseRejectsHexOverflow(n: nat)
    requires n >= U32_LIMIT
    ensures ParseErrorCode("0x" + HexString(n)).Err?
  {
    var hex := HexString(n);
    ValueOfRender(n, Hexadecimal);
    HexTokenUntrimmed(hex);
    StripPrefixOfConcat("0x", hex);
    ParseDigits(hex, Hexadecimal, U32_LIMIT);
  }

  /** The values of `test_parse_hex` and `test_parse_decimal` in
      `src/decoder/anchor.rs`: 6001 is written `1771` in hex and `6001` in
      decimal, and both notations parse to it. */
  lemma ParseTestValues()
    ensures HexString(6001) == "1771" && ParseErrorCode("0x" + HexString(6001)) == Ok(6001)
    ensures DecimalString(6001) == "6001" && ParseErrorCode(DecimalString(6001)) == Ok(6001)
  {
    HexOf6001();
    ParseHexRoundTrip(6001);
    DecimalOf6001();
    ParseDecimalRoundTrip(6001);
  }

  /** The hex text every well-formed record carries reads back as its code. */
  lemma HexFieldReadsBack(e: DecodedError)
    requires HexMatchesCode(e)
    ensures ParseErrorCode(e.errorHex) == Ok(e.errorCode)
  {
    ParseHexRoundTrip(e.errorCode);
  }

  /** The synthesised name carries the variant index in decimal, which the
      code parser reads back as the offset past 6000. */
  lemma CustomNameCarriesIndex(code: u32)
    requires IsAnchorCustomError(code)
    ensures exists digits :: DecodeAnchorCustom(code).errorName == Some("CustomError[" + digits + "]")
                          && ParseErrorCode(digits) == Ok(code - ANCHOR_ERROR_OFFSET)
  {
    var digits := DecimalString(code - ANCHOR_ERROR_OFFSET);
    ParseDecimalRoundTrip(code - ANCHOR_ERROR_OFFSET);
  }
}
