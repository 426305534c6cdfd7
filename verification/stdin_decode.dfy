/** Decoding codes read line by line from standard input (`src/main.rs`):
    each non-blank line is searched for a `0x` hex literal; if there is one it
    alone decides the code, otherwise the whole trimmed line is read with the
    user-facing code parser. Reading stdin and printing are not modelled; a
    line maps to the record that would be printed, if any. */
module StdinDecode {
  import opened Wrappers
  import opened Text
  import opened Numerals
  import opened Output
  import opened Registry
  import opened Anchor
  import opened Decoder

  const HEX_MARKER: string := "0x"

  /** `0x` occurs nowhere in `s`. */
  predicate LacksMarker(s: string) {
    forall j | 0 <= j <= |s| :: !HasPrefix(s[j..], HEX_MARKER)
  }

  /** `extract_hex_error`: the maximal run of hex digits right after the first
      `0x` of the line, if that run is not empty. */
  function ExtractHexError(line: string): (r: Option<string>)
    ensures FindFirst(line, HEX_MARKER).None? ==> r.None?
    ensures r.Some? ==> |r.value| > 0 && AllIn(r.value, HexDigit)
    ensures r.Some? ==>
      var after := FindFirst(line, HEX_MARKER).value + 2;
      && after + |r.value| <= |line|
      && line[after..after + |r.value|] == r.value
      && StopsRun(line[after + |r.value|..], HexDigit)
  {
    match FindFirst(line, HEX_MARKER)
    case None => None
    case Some(pos) =>
      var rest := line[pos + 2..];
      var n := SpanLen(rest, HexDigit);
      if n > 0 then Some(rest[..n]) else None
  }

  /** The first `0x` of a line is the one after a marker-free lead. */
  lemma FirstMarkerAfter(pre: string, rest: string)
    requires LacksMarker(pre)
    ensures FindFirst(pre + HEX_MARKER + rest, HEX_MARKER) == Some(|pre|)
  {
    var line := pre + HEX_MARKER + rest;
    assert line == pre + (HEX_MARKER + rest);
    assert line[|pre|..] == HEX_MARKER + rest;
    assert HasPrefix(line[|pre|..], HEX_MARKER);
    forall j | 0 <= j < |pre| ensures !HasPrefix(line[j..], HEX_MARKER) {
      if j + 1 < |pre| {
        assert !HasPrefix(pre[j..], HEX_MARKER);
        assert pre[j..][..2] == line[j..][..2];
      } else {
        assert line[j..][1] == '0';
      }
    }
  }

  /** Completeness: after a marker-free lead, `0x` and a hex run that the
      rest of the line does not continue, the run is what is extracted. */
  lemma ExtractHexOf(pre: string, hex: string, post: string)
    requires LacksMarker(pre)
    requires |hex| > 0 && AllIn(hex, HexDigit) && StopsRun(post, HexDigit)
    ensures ExtractHexError(pre + HEX_MARKER + hex + post) == Some(hex)
  {
    var line := pre + HEX_MARKER + hex + post;
    assert line == pre + HEX_MARKER + (hex + post);
    FirstMarkerAfter(pre, hex + post);
    assert line[|pre| + 2..] == hex + post;
    SpanOfSplit(hex, post, HexDigit);
    assert (hex + post)[..|hex|] == hex;
  }

  /** Only the first `0x` is looked at: when no hex digit follows it, nothing
      is extracted, whatever later `0x` literals the line holds. */
  lemma OnlyFirstMarkerCounts(pre: string, post: string)
    requires LacksMarker(pre) && StopsRun(post, HexDigit)
    ensures ExtractHexError(pre + HEX_MARKER + post).None?
  {
    var line := pre + HEX_MARKER + post;
    FirstMarkerAfter(pre, post);
    assert line == pre + HEX_MARKER + post;
    assert line[|pre| + 2..] == post;
    SpanOfSplit([], post, HexDigit);
    assert [] + post == post;
  }

  /** A line with no `x` at all has no hex literal. */
  lemma NoXNoMarker(s: string)
    requires forall i | 0 <= i < |s| :: s[i] != 'x'
    ensures LacksMarker(s)
  {
    forall j | 0 <= j <= |s| ensures !HasPrefix(s[j..], HEX_MARKER) {
      if j + 2 <= |s| {
        assert s[j..][..2][1] == s[j + 1];
      }
    }
  }

  /** The per-line decision of `handle_decode_stdin`: the record printed for
      `line`, if any. */
  function DecodeStdinLine(db: ErrorDatabase, line: string, programId: Option<string>): (r: Option<DecodedError>)
    ensures Trim(line) == [] ==> r.None?
    ensures r.Some? ==> r.value == DecodeError(db, r.value.errorCode, programId)
    ensures Trim(line) != [] && ExtractHexError(line).Some? ==>
      (r.Some? <==> ValueOf(ExtractHexError(line).value, Hexadecimal) < U32_LIMIT)
    ensures r.Some? && ExtractHexError(line).Some? ==>
      r.value.errorCode == ValueOf(ExtractHexError(line).value, Hexadecimal)
    ensures Trim(line) != [] && ExtractHexError(line).None? ==>
      (r.Some? <==> ParseErrorCode(line).Ok?)
    ensures r.Some? && ExtractHexError(line).None? ==>
      r.value.errorCode == ParseErrorCode(line).value
  {
    var trimmed := Trim(line);
    if trimmed == [] then None
    else
      match ExtractHexError(line)
      case Some(hex) =>
        ParseDigits(hex, Hexadecimal, U32_LIMIT);
        (match ParseUnsigned(hex, Hexadecimal, U32_LIMIT)
         case Some(code) => Some(DecodeError(db, code, programId))
         case None => None)
      case None =>
        (match ParseTrimmedCode(trimmed)
         case Ok(code) => Some(DecodeError(db, code, programId))
         case Err(_) => None)
  }

  /** After a lead that contains no `0x`, a hex literal not followed by
      another hex digit decodes to its value. Only the first `0x` counts, so
      the lead matters. */
  lemma HexLineDecodes(db: ErrorDatabase, pre: string, code: u32, post: string, programId: Option<string>)
    requires LacksMarker(pre) && StopsRun(post, HexDigit)
    ensures DecodeStdinLine(db, pre + HEX_MARKER + HexString(code) + post, programId)
         == Some(DecodeError(db, code, programId))
  {
    var hex := HexString(code);
    MarkedLine(pre, hex, post, pre + HEX_MARKER + hex + post);
    ValueOfRender(code, Hexadecimal);
    MarkedLineResult(db, pre + HEX_MARKER + hex + post, hex, programId);
  }

  /** A line built from a marker-free lead, `0x` and a hex run is not blank,
      and the run is its hex literal. */
  lemma MarkedLine(pre: string, hex: string, post: string, line: string)
    requires LacksMarker(pre)
    requires |hex| > 0 && AllIn(hex, HexDigit) && StopsRun(post, HexDigit)
    requires line == pre + HEX_MARKER + hex + post
    ensures Trim(line) != [] && ExtractHexError(line) == Some(hex)
  {
    ExtractHexOf(pre, hex, post);
    assert line[|pre|] == '0';
    NotBlank(line, |pre|);
  }

  /** On a non-blank line whose hex literal is `hex`, that literal's value
      alone decides the record. */
  lemma MarkedLineResult(db: ErrorDatabase, line: string, hex: string, programId: Option<string>)
    requires Trim(line) != [] && ExtractHexError(line) == Some(hex)
    ensures ValueOf(hex, Hexadecimal) < U32_LIMIT ==>
      DecodeStdinLine(db, line, programId) == Some(DecodeError(db, ValueOf(hex, Hexadecimal), programId))
    ensures ValueOf(hex, Hexadecimal) >= U32_LIMIT ==> DecodeStdinLine(db, line, programId).None?
  {
  }

  /** A line holding a character other than white space is not blank. */
  lemma NotBlank(line: string, i: nat)
    requires i < |line| && !IsWhitespace(line[i])
    ensures Trim(line) != []
  {
    TrimEmptyIff(line);
  }

  /** A hex literal too large for 32 bits makes the line print nothing: the
      decimal reading is not tried instead. */
  lemma OverflowingHexIsSkipped(db: ErrorDatabase, pre: string, n: nat, post: string, programId: Option<string>)
    requires n >= U32_LIMIT
    requires LacksMarker(pre) && StopsRun(post, HexDigit)
    ensures DecodeStdinLine(db, pre + HEX_MARKER + HexString(n) + post, programId).None?
  {
    var hex := HexString(n);
    MarkedLine(pre, hex, post, pre + HEX_MARKER + hex + post);
    ValueOfRender(n, Hexadecimal);
    MarkedLineResult(db, pre + HEX_MARKER + hex + post, hex, programId);
  }

  /** Without a hex literal the trimmed line is read as a decimal code. */
  lemma DecimalLineDecodes(db: ErrorDatabase, lead: string, code: u32, trail: string, programId: Option<string>)
    requires AllIn(lead, Whitespace) && AllIn(trail, Whitespace)
    ensures DecodeStdinLine(db, lead + DecimalString(code) + trail, programId)
         == Some(DecodeError(db, code, programId))
  {
    var dec := DecimalString(code);
    var line := lead + dec + trail;
    PaddedDigitsLackMarker(lead, dec, trail);
    ParseIgnoresPadding(lead, dec, trail);
    ParseDecimalRoundTrip(code);
    TrimPadded(lead, dec, trail);
  }

  lemma PaddedDigitsLackMarker(lead: string, dec: string, trail: string)
    requires AllIn(lead, Whitespace) && AllIn(trail, Whitespace)
    requires |dec| > 0 && AllIn(dec, Digit)
    ensures LacksMarker(lead + dec + trail)
    ensures !IsWhitespace(dec[0]) && !IsWhitespace(dec[|dec| - 1])
  {
    var line := lead + dec + trail;
    forall i | 0 <= i < |line| ensures line[i] != 'x' {
      if i < |lead| {
        assert line[i] == lead[i];
      } else if i < |lead| + |dec| {
        assert line[i] == dec[i - |lead|];
      } else {
        assert line[i] == trail[i - |lead| - |dec|];
      }
    }
    NoXNoMarker(line);
    assert InClass(dec[0], Digit) && InClass(dec[|dec| - 1], Digit);
  }

  /** What one line contributes to the output: its record, or nothing. */
  function LineRecords(db: ErrorDatabase, line: string, programId: Option<string>): (r: seq<DecodedError>)
    ensures |r| <= 1
    ensures forall k | 0 <= k < |r| :: r[k] == DecodeError(db, r[k].errorCode, programId)
  {
    match DecodeStdinLine(db, line, programId)
    case Some(e) => [e]
    case None => []
  }

  /** Everything `handle_decode_stdin` prints for a sequence of lines. */
  function DecodeStdin(db: ErrorDatabase, lines: seq<string>, programId: Option<string>): (r: seq<DecodedError>)
    ensures |r| <= |lines|
    ensures forall k | 0 <= k < |r| :: r[k] == DecodeError(db, r[k].errorCode, programId)
    ensures |lines| == 1 ==> r == LineRecords(db, lines[0], programId)
  {
    if |lines| == 0 then []
    else
      var before := DecodeStdin(db, lines[..|lines| - 1], programId);
      assert |lines| == 1 ==> before == [];
      before + LineRecords(db, lines[|lines| - 1], programId)
  }

  /** Lines are decoded independently: the output of a concatenation of inputs
      is the concatenation of the outputs. */
  lemma {:induction false} DecodeStdinAppend(db: ErrorDatabase, a: seq<string>, b: seq<string>, programId: Option<string>)
    ensures DecodeStdin(db, a + b, programId) == DecodeStdin(db, a, programId) + DecodeStdin(db, b, programId)
    decreases |b|
  {
    if |b| == 0 {
      assert a + b == a;
    } else {
      var b' := b[..|b| - 1];
      assert (a + b)[..|a + b| - 1] == a + b';
      assert (a + b)[|a + b| - 1] == b[|b| - 1];
      DecodeStdinAppend(db, a, b', programId);
      Regrouped(DecodeStdin(db, a, programId), DecodeStdin(db, b', programId), LineRecords(db, b[|b| - 1], programId));
    }
  }

  /** Concatenation regrouped, stated apart so the step above stays cheap. */
  lemma Regrouped(x: seq<DecodedError>, y: seq<DecodedError>, z: seq<DecodedError>)
    ensures x + y + z == x + (y + z)
  {
  }
}
