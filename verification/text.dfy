/** The string primitives the decoder leans on: the character classes of its
    regular expressions, Rust's `strip_prefix`, `find` and `trim`, greedy runs
    of a character class, and the leftmost-first search an unanchored regex
    performs. Strings are sequences of Unicode scalar values. */
module Text {
  import opened Wrappers

  /** Rust's `char::is_whitespace`, the Unicode White_Space property, which is
      what `str::trim` strips. */
  predicate IsWhitespace(c: char) {
    || c == ' '
    || ('\t' <= c <= '\r')
    || c == '\U{0085}' || c == '\U{00A0}' || c == '\U{1680}'
    || ('\U{2000}' <= c <= '\U{200A}')
    || c == '\U{2028}' || c == '\U{2029}' || c == '\U{202F}' || c == '\U{205F}'
    || c == '\U{3000}'
  }

  /** The character classes used by the log patterns. */
  datatype CharClass =
    | Base58      // [1-9A-HJ-NP-Za-km-z]
    | Digit       // \d, taken as ASCII 0-9
    | HexDigit    // [0-9a-fA-F], also Rust's is_ascii_hexdigit
    | Word        // \w, taken as ASCII [0-9A-Za-z_]
    | NotColon    // [^:]
    | NotDot      // [^.]
    | NotNewline  // the regex dot, which excludes only '\n'
    | Whitespace  // char::is_whitespace

  predicate InClass(c: char, k: CharClass) {
    match k
    case Base58 =>
      || ('1' <= c <= '9') || ('A' <= c <= 'H') || ('J' <= c <= 'N')
      || ('P' <= c <= 'Z') || ('a' <= c <= 'k') || ('m' <= c <= 'z')
    case Digit => '0' <= c <= '9'
    case HexDigit => ('0' <= c <= '9') || ('a' <= c <= 'f') || ('A' <= c <= 'F')
    case Word => ('0' <= c <= '9') || ('a' <= c <= 'z') || ('A' <= c <= 'Z') || c == '_'
    case NotColon => c != ':'
    case NotDot => c != '.'
    case NotNewline => c != '\n'
    case Whitespace => IsWhitespace(c)
  }

  predicate AllIn(s: string, k: CharClass) {
    forall i | 0 <= i < |s| :: InClass(s[i], k)
  }

  /** A concatenation lies in a class exactly when both parts do. */
  lemma AllInConcat(a: string, b: string, k: CharClass)
    ensures AllIn(a + b, k) <==> AllIn(a, k) && AllIn(b, k)
  {
    if AllIn(a + b, k) {
      forall i | 0 <= i < |a| ensures InClass(a[i], k) {
        assert (a + b)[i] == a[i];
      }
      forall i | 0 <= i < |b| ensures InClass(b[i], k) {
        assert (a + b)[|a| + i] == b[i];
      }
    }
  }

  /** A greedy run of class `k` ends exactly where `rest` begins. */
  predicate StopsRun(rest: string, k: CharClass) {
    |rest| == 0 || !InClass(rest[0], k)
  }

  predicate HasPrefix(s: string, p: string) {
    |p| <= |s| && s[..|p|] == p
  }

  /** Rust's `str::strip_prefix`. */
  function StripPrefix(s: string, p: string): (r: Option<string>)
    ensures r.Some? <==> HasPrefix(s, p)
    ensures r.Some? ==> s == p + r.value
  {
    if HasPrefix(s, p) then
      assert s == s[..|p|] + s[|p|..];
      Some(s[|p|..])
    else None
  }

  lemma StripPrefixOfConcat(p: string, t: string)
    ensures StripPrefix(p + t, p) == Some(t)
  {
    assert (p + t)[..|p|] == p;
    assert (p + t)[|p|..] == t;
  }

  /** The length of the longest prefix of `s` whose characters are all in `k`. */
  function SpanLen(s: string, k: CharClass): (n: nat)
    ensures n <= |s|
    ensures AllIn(s[..n], k)
    ensures StopsRun(s[n..], k)
  {
    if |s| == 0 || !InClass(s[0], k) then 0
    else
      var m := SpanLen(s[1..], k);
      assert s[..1 + m] == [s[0]] + s[1..][..m];
      assert s[1 + m..] == s[1..][m..];
      1 + m
  }

  /** The greedy run is determined: whatever splits `s` into a run of `k`
      followed by a non-`k` character (or the end) is the split `SpanLen` finds. */
  lemma {:induction false} SpanOfSplit(a: string, b: string, k: CharClass)
    requires AllIn(a, k)
    requires StopsRun(b, k)
    ensures SpanLen(a + b, k) == |a|
    decreases |a|
  {
    if |a| == 0 {
      assert a + b == b;
    } else {
      assert (a + b)[0] == a[0];
      assert (a + b)[1..] == a[1..] + b;
      SpanOfSplit(a[1..], b, k);
    }
  }

  /** A run of the class with its remainder, as a greedy regex group leaves them. */
  datatype Split = Split(token: string, rest: string)

  /** The greedy group `k{min,}` at the start of `s`. */
  function TakeSpan(s: string, k: CharClass, min: nat): (r: Option<Split>)
    ensures r.Some? ==> s == r.value.token + r.value.rest
    ensures r.Some? ==> AllIn(r.value.token, k) && |r.value.token| >= min
    ensures r.Some? ==> StopsRun(r.value.rest, k)
  {
    var n := SpanLen(s, k);
    if n < min then None
    else
      assert s == s[..n] + s[n..];
      Some(Split(s[..n], s[n..]))
  }

  lemma TakeSpanOfConcat(a: string, b: string, k: CharClass, min: nat)
    requires AllIn(a, k) && |a| >= min
    requires StopsRun(b, k)
    ensures TakeSpan(a + b, k, min) == Some(Split(a, b))
  {
    SpanOfSplit(a, b, k);
    assert (a + b)[..|a|] == a;
    assert (a + b)[|a|..] == b;
  }

  /** A literal followed by the greedy group `k{min,}`, at the start of `s`:
      the step every log pattern is built from. */
  function LiteralRun(s: string, lit: string, k: CharClass, min: nat): (r: Option<Split>)
    ensures r.Some? ==> s == lit + r.value.token + r.value.rest
    ensures r.Some? ==> AllIn(r.value.token, k) && |r.value.token| >= min
    ensures r.Some? ==> StopsRun(r.value.rest, k)
  {
    match StripPrefix(s, lit)
    case None => None
    case Some(t) => TakeSpan(t, k, min)
  }

  lemma LiteralRunOf(lit: string, token: string, rest: string, k: CharClass, min: nat)
    requires AllIn(token, k) && |token| >= min
    requires StopsRun(rest, k)
    ensures LiteralRun(lit + token + rest, lit, k, min) == Some(Split(token, rest))
  {
    assert lit + token + rest == lit + (token + rest);
    StripPrefixOfConcat(lit, token + rest);
    TakeSpanOfConcat(token, rest, k, min);
  }

  /** A string that differs from `p` at some position of `p` does not start with `p`. */
  lemma StripPrefixMismatch(s: string, p: string, i: nat)
    requires i < |p| && (i >= |s| || s[i] != p[i])
    ensures StripPrefix(s, p).None?
  {
    if |p| <= |s| {
      assert s[..|p|][i] == s[i];
    }
  }

  /** Two literals that differ within both their lengths cannot both start a string. */
  lemma LiteralsDiffer(a: string, rest: string, p: string, i: nat)
    requires i < |a| && i < |p| && a[i] != p[i]
    ensures StripPrefix(a + rest, p).None?
  {
    StripPrefixMismatch(a + rest, p, i);
  }

  /** Leftmost-first search of an unanchored pattern: the first position `i`
      at which the anchored matcher `at` accepts the suffix `s[i..]`. */
  function LeftmostMatch<T>(s: string, at: string -> Option<T>): (r: Option<(nat, T)>)
    ensures r.Some? ==> r.value.0 <= |s| && at(s[r.value.0..]) == Some(r.value.1)
    ensures r.Some? ==> forall j | 0 <= j < r.value.0 :: at(s[j..]).None?
    ensures r.None? ==> forall j | 0 <= j <= |s| :: at(s[j..]).None?
  {
    LeftmostFrom(s, at, 0)
  }

  function LeftmostFrom<T>(s: string, at: string -> Option<T>, i: nat): (r: Option<(nat, T)>)
    requires i <= |s|
    ensures r.Some? ==> i <= r.value.0 <= |s| && at(s[r.value.0..]) == Some(r.value.1)
    ensures r.Some? ==> forall j | i <= j < r.value.0 :: at(s[j..]).None?
    ensures r.None? ==> forall j | i <= j <= |s| :: at(s[j..]).None?
    decreases |s| - i
  {
    match at(s[i..])
    case Some(v) => Some((i, v))
    case None => if i == |s| then None else LeftmostFrom(s, at, i + 1)
  }

  /** The leftmost match is the position where the matcher first accepts. */
  lemma LeftmostMatchAt<T>(s: string, at: string -> Option<T>, i: nat, v: T)
    requires i <= |s| && at(s[i..]) == Some(v)
    requires forall j | 0 <= j < i :: at(s[j..]).None?
    ensures LeftmostMatch(s, at) == Some((i, v))
  {
  }

  /** Rust's `str::find` for a string pattern: the first index at which `pat` occurs. */
  function FindFirst(s: string, pat: string): (r: Option<nat>)
    ensures r.Some? ==> r.value <= |s| && HasPrefix(s[r.value..], pat)
    ensures r.Some? ==> forall j | 0 <= j < r.value :: !HasPrefix(s[j..], pat)
    ensures r.None? ==> forall j | 0 <= j <= |s| :: !HasPrefix(s[j..], pat)
  {
    var at := (t: string) => if HasPrefix(t, pat) then Some(()) else None;
    match LeftmostMatch(s, at)
    case Some((i, _)) => Some(i)
    case None => None
  }

  /** Rust's `str::trim_start`. */
  function TrimStart(s: string): (r: string)
    ensures |r| <= |s| && r == s[|s| - |r|..]
    ensures AllIn(s[..|s| - |r|], Whitespace)
    ensures |r| == 0 || !IsWhitespace(r[0])
  {
    s[SpanLen(s, Whitespace)..]
  }

  /** Rust's `str::trim_end`. */
  function TrimEnd(s: string): (r: string)
    ensures |r| <= |s| && r == s[..|r|]
    ensures AllIn(s[|r|..], Whitespace)
    ensures |r| == 0 || !IsWhitespace(r[|r| - 1])
  {
    if |s| > 0 && IsWhitespace(s[|s| - 1]) then
      var r := TrimEnd(s[..|s| - 1]);
      assert s[|r|..] == s[..|s| - 1][|r|..] + [s[|s| - 1]];
      r
    else s
  }

  /** Rust's `str::trim`: drops leading and trailing white space. */
  function Trim(s: string): (r: string)
    ensures |r| == 0 || (!IsWhitespace(r[0]) && !IsWhitespace(r[|r| - 1]))
  {
    TrimEnd(TrimStart(s))
  }

  lemma {:induction false} TrimEndPadded(x: string, trail: string)
    requires AllIn(trail, Whitespace)
    requires |x| == 0 || !IsWhitespace(x[|x| - 1])
    ensures TrimEnd(x + trail) == x
    decreases |trail|
  {
    if |trail| == 0 {
      assert x + trail == x;
    } else {
      var s := x + trail;
      var t' := trail[..|trail| - 1];
      assert s[|s| - 1] == trail[|trail| - 1];
      assert s[..|s| - 1] == x + t';
      TrimEndPadded(x, t');
    }
  }

  /** What `trim` keeps is pinned down by the text between the white space:
      white space around a token without white-space ends trims back to the token. */
  lemma TrimPadded(lead: string, x: string, trail: string)
    requires AllIn(lead, Whitespace) && AllIn(trail, Whitespace)
    requires |x| == 0 || (!IsWhitespace(x[0]) && !IsWhitespace(x[|x| - 1]))
    ensures Trim(lead + x + trail) == x
  {
    var s := lead + x + trail;
    assert s == lead + (x + trail);
    if |x| > 0 {
      SpanOfSplit(lead, x + trail, Whitespace);
      assert TrimStart(s) == x + trail;
      TrimEndPadded(x, trail);
    } else {
      assert AllIn(s, Whitespace);
      SpanOfSplit(s, [], Whitespace);
      assert s + [] == s;
      assert TrimStart(s) == [];
      assert TrimEnd([]) == [];
    }
  }

  /** `trim` leaves nothing exactly when the text is all white space. */
  lemma TrimEmptyIff(s: string)
    ensures Trim(s) == [] <==> AllIn(s, Whitespace)
  {
    if AllIn(s, Whitespace) {
      TrimPadded(s, [], []);
      assert s + [] + [] == s;
    }
    var t := TrimStart(s);
    assert s == s[..|s| - |t|] + t;
    if Trim(s) == [] {
      assert t[|TrimEnd(t)|..] == t;
      AllInConcat(s[..|s| - |t|], t, Whitespace);
    }
  }

  /** A token without white space at either end is its own trim. */
  lemma TrimUnpadded(x: string)
    requires |x| == 0 || (!IsWhitespace(x[0]) && !IsWhitespace(x[|x| - 1]))
    ensures Trim(x) == x
  {
    TrimPadded([], x, []);
    assert [] + x + [] == x;
  }
}
