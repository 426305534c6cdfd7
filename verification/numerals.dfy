/** Rust's fixed-width unsigned integers and the two textual forms the decoder
    reads and writes: `from_str_radix` / `str::parse` on the way in, `{}` and
    `{:x}` formatting on the way out. */
module Numerals {
  import opened Wrappers
  import opened Text

  type u8 = x: int | 0 <= x < 0x100
  type u32 = x: int | 0 <= x < 0x1_0000_0000
  type u64 = x: int | 0 <= x < 0x1_0000_0000_0000_0000

  const U8_LIMIT: nat := 0x100
  const U32_LIMIT: nat := 0x1_0000_0000
  const U64_LIMIT: nat := 0x1_0000_0000_0000_0000

  datatype Radix = Decimal | Hexadecimal {
    function Base(): nat {
      if Decimal? then 10 else 16
    }

    function DigitClass(): CharClass {
      if Decimal? then Digit else HexDigit
    }
  }

  /** The value of a digit as `char::to_digit(16)` reads it: either case. */
  function DigitValue(c: char): (d: nat)
    requires InClass(c, HexDigit)
    ensures d < 16
    ensures InClass(c, Digit) <==> d < 10
  {
    if '0' <= c <= '9' then (c as int) - ('0' as int)
    else if 'a' <= c <= 'f' then (c as int) - ('a' as int) + 10
    else (c as int) - ('A' as int) + 10
  }

  /** The digit for `d` as Rust prints it: `{:x}` uses lower case. */
  function DigitChar(d: nat): (c: char)
    requires d < 16
    ensures InClass(c, HexDigit) && DigitValue(c) == d
    ensures d < 10 ==> InClass(c, Digit)
    ensures c == '0' <==> d == 0
    ensures '0' <= c <= '9' || 'a' <= c <= 'f'
  {
    if d < 10 then (('0' as int) + d) as char else (('a' as int) + d - 10) as char
  }

  /** The positional value of a run of digits, most significant first. */
  function ValueOf(s: string, radix: Radix): nat
    requires AllIn(s, radix.DigitClass())
  {
    if |s| == 0 then 0
    else ValueOf(s[..|s| - 1], radix) * radix.Base() + DigitValue(s[|s| - 1])
  }

  /** `n` written in the radix with no leading zeros and lower-case letters. */
  function Render(n: nat, radix: Radix): (s: string)
    ensures |s| > 0 && AllIn(s, radix.DigitClass())
    ensures s[0] == '0' <==> n == 0
    ensures n == 0 ==> s == "0"
    ensures forall i | 0 <= i < |s| :: '0' <= s[i] <= '9' || 'a' <= s[i] <= 'f'
    decreases n
  {
    if n < radix.Base() then [DigitChar(n)]
    else Render(n / radix.Base(), radix) + [DigitChar(n % radix.Base())]
  }

  /** `format!("{:x}", n)`. */
  function HexString(n: nat): string {
    Render(n, Hexadecimal)
  }

  /** `format!("{}", n)`. */
  function DecimalString(n: nat): string {
    Render(n, Decimal)
  }

  /** Reading back what `Render` wrote gives the number again. */
  lemma {:induction false} ValueOfRender(n: nat, radix: Radix)
    ensures ValueOf(Render(n, radix), radix) == n
    decreases n
  {
    var b := radix.Base();
    var s := Render(n, radix);
    if n < b {
      assert s[..|s| - 1] == [];
    } else {
      ValueOfRender(n / b, radix);
      assert s[..|s| - 1] == Render(n / b, radix);
      assert s[|s| - 1] == DigitChar(n % b);
    }
  }

  /** What follows the one leading `+` Rust's parsers tolerate, if there is one. */
  function Unsigned(s: string): (d: string)
    ensures s == d || s == "+" + d
    ensures |s| > 0 && s[0] != '+' ==> d == s
  {
    if |s| > 0 && s[0] == '+' then s[1..] else s
  }

  /** Rust's `from_str_radix` for an unsigned type whose values lie below
      `limit`: one optional leading `+`, then one or more digits of the radix,
      and a value that fits. (`str::parse` is the radix-10 case.) */
  function ParseUnsigned(s: string, radix: Radix, limit: nat): (r: Option<nat>)
    ensures r.Some? <==>
      |Unsigned(s)| > 0 && AllIn(Unsigned(s), radix.DigitClass()) && ValueOf(Unsigned(s), radix) < limit
    ensures r.Some? ==> r.value == ValueOf(Unsigned(s), radix)
    ensures r.Some? ==> r.value < limit
    ensures |s| == 0 || s == "+" ==> r.None?
    ensures |s| > 0 && s[0] != '+' && !InClass(s[0], radix.DigitClass()) ==> r.None?
    ensures (exists i | 0 < i < |s| :: !InClass(s[i], radix.DigitClass())) ==> r.None?
  {
    var digits := Unsigned(s);
    if |digits| == 0 || !AllIn(digits, radix.DigitClass()) then None
    else
      var v := ValueOf(digits, radix);
      if v < limit then Some(v) else None
  }

  /** On a plain run of digits the parse is the positional value, or fails
      exactly when that value does not fit. */
  lemma ParseDigits(s: string, radix: Radix, limit: nat)
    requires |s| > 0 && AllIn(s, radix.DigitClass())
    ensures ValueOf(s, radix) < limit ==> ParseUnsigned(s, radix, limit) == Some(ValueOf(s, radix))
    ensures ValueOf(s, radix) >= limit ==> ParseUnsigned(s, radix, limit).None?
  {
    assert s[0] != '+';
  }

  /** Every representable value survives printing and parsing, with or
      without the `+` sign Rust tolerates. */
  lemma ParseRender(n: nat, radix: Radix, limit: nat)
    requires n < limit
    ensures ParseUnsigned(Render(n, radix), radix, limit) == Some(n)
    ensures ParseUnsigned("+" + Render(n, radix), radix, limit) == Some(n)
  {
    var s := Render(n, radix);
    ValueOfRender(n, radix);
    ParseDigits(s, radix, limit);
    assert ("+" + s)[1..] == s;
  }

  /** `.parse().unwrap_or(0)`: a failed parse becomes zero. */
  function ParseOrZero(s: string, radix: Radix, limit: nat): (v: nat)
    requires limit > 0
    ensures v < limit
    ensures ParseUnsigned(s, radix, limit).Some? ==> v == ParseUnsigned(s, radix, limit).value
    ensures ParseUnsigned(s, radix, limit).None? ==> v == 0
  {
    ParseUnsigned(s, radix, limit).GetOr(0)
  }

  /** 6001, one past the custom-error offset, renders as `1771` in hex. */
  lemma HexOf6001()
    ensures HexString(6001) == "1771"
  {
    assert Render(1, Hexadecimal) == "1";
    assert Render(23, Hexadecimal) == "17";
    assert Render(375, Hexadecimal) == "177";
  }

  /** ... and as `6001` in decimal. */
  lemma DecimalOf6001()
    ensures DecimalString(6001) == "6001"
  {
    assert Render(6, Decimal) == "6";
    assert Render(60, Decimal) == "60";
    assert Render(600, Decimal) == "600";
  }
}
