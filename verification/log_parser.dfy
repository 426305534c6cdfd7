/** The line classifier (`src/log_parser.rs`). Each of its six regular
    expressions is a hand-written matcher here, paired with a predicate that
    describes the lines it accepts as a concatenation of literal text and
    captured groups; lemmas prove each matcher exact for its predicate. The
    four `Program <id> ...` patterns are anchored at both ends; the Anchor
    error and the custom-error patterns are found anywhere in the line,
    leftmost first. */
module LogParser {
  import opened Wrappers
  import opened Text
  import opened Numerals

  datatype LogEntry =
    | Invoke(programId: string, depth: u8)
    | Success(programId: string)
    | Failed(programId: string, error: string)
    | Consumed(programId: string, used: u64, total: u64)
    | AnchorError(file: string, line: u32, codeName: string, codeNumber: u32, message: string)
    | CustomError(hexCode: string)
    | Other(message: string)

  // The literal text of the patterns.
  const PROGRAM: string := "Program "
  const INVOKE: string := " invoke ["
  const SUCCESS: string := " success"
  const FAILED: string := " failed: "
  const CONSUMED: string := " consumed "
  const OF: string := " of "
  const COMPUTE_UNITS: string := " compute units"
  const ANCHOR_THROWN: string := "AnchorError thrown in "
  const ERROR_CODE: string := ". Error Code: "
  const ERROR_NUMBER: string := ". Error Number: "
  const ERROR_MESSAGE: string := ". Error Message: "
  const CUSTOM_ERROR: string := "custom program error: 0x"

  /** Where the colon sits in `CUSTOM_ERROR`. */
  const CUSTOM_COLON: nat := |"custom program error"|

  /** `[1-9A-HJ-NP-Za-km-z]{32,}`: a Base58 program id of 32 characters or more. */
  predicate IsProgramId(id: string) {
    |id| >= 32 && AllIn(id, Base58)
  }

  /** `\d+`. */
  predicate IsDigits(s: string) {
    |s| > 0 && AllIn(s, Digit)
  }

  // ---------------------------------------------------------------------
  // The lines each pattern accepts.

  /** `^Program (id) invoke \[(\d+)\]$` */
  predicate IsInvokeLine(line: string, id: string, depth: string) {
    line == PROGRAM + id + INVOKE + depth + "]" && IsProgramId(id) && IsDigits(depth)
  }

  /** `^Program (id) success$` */
  predicate IsSuccessLine(line: string, id: string) {
    line == PROGRAM + id + SUCCESS && IsProgramId(id)
  }

  /** `^Program (id) failed: (.*)$` — the regex dot stops at a line feed. */
  predicate IsFailedLine(line: string, id: string, error: string) {
    line == PROGRAM + id + FAILED + error && IsProgramId(id) && AllIn(error, NotNewline)
  }

  /** `^Program (id) consumed (\d+) of (\d+) compute units$` */
  predicate IsConsumedLine(line: string, id: string, used: string, total: string) {
    && line == PROGRAM + id + CONSUMED + used + OF + total + COMPUTE_UNITS
    && IsProgramId(id) && IsDigits(used) && IsDigits(total)
  }

  /** The five groups of the Anchor error pattern, as text. */
  datatype AnchorCaptures = AnchorCaptures(
    file: string, line: string, codeName: string, codeNumber: string, message: string)

  /** `([^:]+)`, `(\d+)`, `(\w+)`, `(\d+)` and `([^.]+)`. */
  predicate ValidAnchorCaptures(c: AnchorCaptures) {
    && |c.file| > 0 && AllIn(c.file, NotColon)
    && IsDigits(c.line)
    && |c.codeName| > 0 && AllIn(c.codeName, Word)
    && IsDigits(c.codeNumber)
    && |c.message| > 0 && AllIn(c.message, NotDot)
  }

  /** `AnchorError thrown in (file):(line)` */
  function AnchorLocation(c: AnchorCaptures): string {
    ANCHOR_THROWN + c.file + ":" + c.line
  }

  /** `\. Error Code: (name)\. Error Number: (number)\. Error Message: (message)` */
  function AnchorDetails(c: AnchorCaptures): string {
    ERROR_CODE + c.codeName + ERROR_NUMBER + c.codeNumber + ERROR_MESSAGE + c.message
  }

  function AnchorText(c: AnchorCaptures): string {
    AnchorLocation(c) + AnchorDetails(c)
  }

  /** The Anchor error pattern matches at the start of `s` with groups `c`;
      the final group is greedy, so the match ends at a `.` or at the end. */
  predicate AnchorMatchAt(s: string, c: AnchorCaptures) {
    && ValidAnchorCaptures(c)
    && HasPrefix(s, AnchorText(c))
    && StopsRun(s[|AnchorText(c)|..], NotDot)
  }

  /** `custom program error: 0x([0-9a-fA-F]+)` matches at the start of `s`. */
  predicate CustomMatchAt(s: string, hex: string) {
    && |hex| > 0 && AllIn(hex, HexDigit)
    && HasPrefix(s, CUSTOM_ERROR + hex)
    && StopsRun(s[|CUSTOM_ERROR + hex|..], HexDigit)
  }

  // ---------------------------------------------------------------------
  // Regrouping the pieces the matchers peel off one step at a time.

  lemma Grouped3(a: string, b: string, c: string)
    ensures a + b + c == a + (b + c)
  {
  }

  /** Peeling two literal-and-group steps off `s` leaves `rest` exactly when
      `s` is their concatenation followed by `rest`. */
  lemma Chained2(s: string, l1: string, t1: string, l2: string, t2: string, rest: string, r1: string)
    ensures s == l1 + t1 + r1 && r1 == l2 + t2 + rest
        <==> s == l1 + t1 + l2 + t2 + rest && r1 == l2 + t2 + rest
  {
  }

  /** The same for three steps. */
  lemma Chained3(s: string, l1: string, t1: string, l2: string, t2: string, l3: string, t3: string,
                 rest: string, r1: string, r2: string)
    ensures s == l1 + t1 + r1 && r1 == l2 + t2 + r2 && r2 == l3 + t3 + rest
        <==> s == l1 + t1 + l2 + t2 + l3 + t3 + rest && r1 == l2 + t2 + r2 && r2 == l3 + t3 + rest
  {
  }

  /** A string starts with its own front part, and the remainder is what follows it. */
  lemma PrefixAndRest(front: string, rest: string)
    ensures HasPrefix(front + rest, front)
    ensures (front + rest)[|front|..] == rest
  {
    assert (front + rest)[..|front|] == front;
  }

  /** ... and conversely, a string with a given front part is that part plus the rest. */
  lemma SplitAfterPrefix(s: string, front: string)
    requires HasPrefix(s, front)
    ensures s == front + s[|front|..]
  {
    assert s == s[..|front|] + s[|front|..];
  }

  // ---------------------------------------------------------------------
  // The matchers.

  /** `^Program ([1-9A-HJ-NP-Za-km-z]{32,})`, leaving what follows the id. */
  function MatchProgramHead(line: string): (r: Option<Split>)
    ensures r.Some? ==> line == PROGRAM + r.value.token + r.value.rest
    ensures r.Some? ==> IsProgramId(r.value.token) && StopsRun(r.value.rest, Base58)
  {
    LiteralRun(line, PROGRAM, Base58, 32)
  }

  /** The id ends where the next space begins. */
  lemma ProgramHeadOf(id: string, after: string)
    requires IsProgramId(id) && |after| > 0 && after[0] == ' '
    ensures MatchProgramHead(PROGRAM + id + after) == Some(Split(id, after))
  {
    LiteralRunOf(PROGRAM, id, after, Base58, 32);
  }

  function MatchInvoke(line: string): (r: Option<(string, string)>)
    ensures r.Some? ==> IsInvokeLine(line, r.value.0, r.value.1)
  {
    match MatchProgramHead(line)
    case None => None
    case Some(id) =>
      match LiteralRun(id.rest, INVOKE, Digit, 1)
      case None => None
      case Some(depth) =>
        if depth.rest == "]" then
          Chained2(line, PROGRAM, id.token, INVOKE, depth.token, "]", id.rest);
          Some((id.token, depth.token))
        else None
  }

  lemma InvokeMatcherExact(line: string, id: string, depth: string)
    ensures MatchInvoke(line) == Some((id, depth)) <==> IsInvokeLine(line, id, depth)
  {
    if IsInvokeLine(line, id, depth) {
      var after := INVOKE + depth + "]";
      Chained2(line, PROGRAM, id, INVOKE, depth, "]", after);
      ProgramHeadOf(id, after);
      LiteralRunOf(INVOKE, depth, "]", Digit, 1);
    }
  }

  function MatchSuccess(line: string): (r: Option<string>)
    ensures r.Some? ==> IsSuccessLine(line, r.value)
  {
    match MatchProgramHead(line)
    case None => None
    case Some(id) => if id.rest == SUCCESS then Some(id.token) else None
  }

  lemma SuccessMatcherExact(line: string, id: string)
    ensures MatchSuccess(line) == Some(id) <==> IsSuccessLine(line, id)
  {
    if IsSuccessLine(line, id) {
      ProgramHeadOf(id, SUCCESS);
    }
  }

  function MatchFailed(line: string): (r: Option<(string, string)>)
    ensures r.Some? ==> IsFailedLine(line, r.value.0, r.value.1)
  {
    match MatchProgramHead(line)
    case None => None
    case Some(id) =>
      match StripPrefix(id.rest, FAILED)
      case None => None
      case Some(error) =>
        if AllIn(error, NotNewline) then
          Grouped3(PROGRAM + id.token, FAILED, error);
          Some((id.token, error))
        else None
  }

  lemma FailedMatcherExact(line: string, id: string, error: string)
    ensures MatchFailed(line) == Some((id, error)) <==> IsFailedLine(line, id, error)
  {
    if IsFailedLine(line, id, error) {
      Grouped3(PROGRAM + id, FAILED, error);
      ProgramHeadOf(id, FAILED + error);
      StripPrefixOfConcat(FAILED, error);
    }
  }

  function MatchConsumed(line: string): (r: Option<(string, string, string)>)
    ensures r.Some? ==> IsConsumedLine(line, r.value.0, r.value.1, r.value.2)
  {
    match MatchProgramHead(line)
    case None => None
    case Some(id) =>
      match LiteralRun(id.rest, CONSUMED, Digit, 1)
      case None => None
      case Some(used) =>
        match LiteralRun(used.rest, OF, Digit, 1)
        case None => None
        case Some(total) =>
          if total.rest == COMPUTE_UNITS then
            Chained3(line, PROGRAM, id.token, CONSUMED, used.token, OF, total.token, COMPUTE_UNITS,
                     id.rest, used.rest);
            Some((id.token, used.token, total.token))
          else None
  }

  lemma ConsumedMatcherExact(line: string, id: string, used: string, total: string)
    ensures MatchConsumed(line) == Some((id, used, total)) <==> IsConsumedLine(line, id, used, total)
  {
    if IsConsumedLine(line, id, used, total) {
      var r2 := OF + total + COMPUTE_UNITS;
      var r1 := CONSUMED + used + r2;
      Chained3(line, PROGRAM, id, CONSUMED, used, OF, total, COMPUTE_UNITS, r1, r2);
      ProgramHeadOf(id, r1);
      LiteralRunOf(CONSUMED, used, r2, Digit, 1);
      LiteralRunOf(OF, total, COMPUTE_UNITS, Digit, 1);
    }
  }

  datatype LocationMatch = LocationMatch(file: string, line: string, rest: string)

  /** The first half of the Anchor error pattern, up to the line number. */
  function MatchAnchorLocation(s: string): (r: Option<LocationMatch>)
    ensures r.Some? ==> s == ANCHOR_THROWN + r.value.file + ":" + r.value.line + r.value.rest
    ensures r.Some? ==> |r.value.file| > 0 && AllIn(r.value.file, NotColon)
    ensures r.Some? ==> IsDigits(r.value.line) && StopsRun(r.value.rest, Digit)
  {
    match LiteralRun(s, ANCHOR_THROWN, NotColon, 1)
    case None => None
    case Some(file) =>
      match LiteralRun(file.rest, ":", Digit, 1)
      case None => None
      case Some(line) =>
        Chained2(s, ANCHOR_THROWN, file.token, ":", line.token, line.rest, file.rest);
        Some(LocationMatch(file.token, line.token, line.rest))
  }

  lemma AnchorLocationExact(file: string, line: string, rest: string)
    requires |file| > 0 && AllIn(file, NotColon)
    requires IsDigits(line) && StopsRun(rest, Digit)
    ensures MatchAnchorLocation(ANCHOR_THROWN + file + ":" + line + rest) == Some(LocationMatch(file, line, rest))
  {
    var r1 := ":" + line + rest;
    Chained2(ANCHOR_THROWN + file + ":" + line + rest, ANCHOR_THROWN, file, ":", line, rest, r1);
    LiteralRunOf(ANCHOR_THROWN, file, r1, NotColon, 1);
    LiteralRunOf(":", line, rest, Digit, 1);
  }

  datatype DetailsMatch = DetailsMatch(codeName: string, codeNumber: string, message: string, rest: string)

  /** The second half of the Anchor error pattern, from `. Error Code: ` on. */
  function MatchAnchorDetails(s: string): (r: Option<DetailsMatch>)
    ensures r.Some? ==> s == ERROR_CODE + r.value.codeName + ERROR_NUMBER + r.value.codeNumber
                             + ERROR_MESSAGE + r.value.message + r.value.rest
    ensures r.Some? ==> |r.value.codeName| > 0 && AllIn(r.value.codeName, Word)
    ensures r.Some? ==> IsDigits(r.value.codeNumber)
    ensures r.Some? ==> |r.value.message| > 0 && AllIn(r.value.message, NotDot) && StopsRun(r.value.rest, NotDot)
  {
    match LiteralRun(s, ERROR_CODE, Word, 1)
    case None => None
    case Some(name) =>
      match LiteralRun(name.rest, ERROR_NUMBER, Digit, 1)
      case None => None
      case Some(number) =>
        match LiteralRun(number.rest, ERROR_MESSAGE, NotDot, 1)
        case None => None
        case Some(message) =>
          Chained3(s, ERROR_CODE, name.token, ERROR_NUMBER, number.token, ERROR_MESSAGE, message.token,
                   message.rest, name.rest, number.rest);
          Some(DetailsMatch(name.token, number.token, message.token, message.rest))
  }

  lemma AnchorDetailsExact(name: string, number: string, message: string, rest: string)
    requires |name| > 0 && AllIn(name, Word)
    requires IsDigits(number)
    requires |message| > 0 && AllIn(message, NotDot) && StopsRun(rest, NotDot)
    ensures MatchAnchorDetails(ERROR_CODE + name + ERROR_NUMBER + number + ERROR_MESSAGE + message + rest)
         == Some(DetailsMatch(name, number, message, rest))
  {
    var r2 := ERROR_MESSAGE + message + rest;
    var r1 := ERROR_NUMBER + number + r2;
    Chained3(ERROR_CODE + name + ERROR_NUMBER + number + ERROR_MESSAGE + message + rest,
             ERROR_CODE, name, ERROR_NUMBER, number, ERROR_MESSAGE, message, rest, r1, r2);
    LiteralRunOf(ERROR_CODE, name, r1, Word, 1);
    LiteralRunOf(ERROR_NUMBER, number, r2, Digit, 1);
    LiteralRunOf(ERROR_MESSAGE, message, rest, NotDot, 1);
  }

  /** The Anchor error pattern, anchored at the start of `s`. */
  function MatchAnchorAt(s: string): (r: Option<AnchorCaptures>)
    ensures r.Some? ==> AnchorMatchAt(s, r.value)
  {
    match MatchAnchorLocation(s)
    case None => None
    case Some(loc) =>
      match MatchAnchorDetails(loc.rest)
      case None => None
      case Some(det) =>
        var c := AnchorCaptures(loc.file, loc.line, det.codeName, det.codeNumber, det.message);
        Grouped3(AnchorLocation(c), AnchorDetails(c), det.rest);
        PrefixAndRest(AnchorText(c), det.rest);
        Some(c)
  }

  lemma AnchorMatcherExact(s: string, c: AnchorCaptures)
    ensures MatchAnchorAt(s) == Some(c) <==> AnchorMatchAt(s, c)
  {
    if AnchorMatchAt(s, c) {
      var tail := s[|AnchorText(c)|..];
      SplitAfterPrefix(s, AnchorText(c));
      Grouped3(AnchorLocation(c), AnchorDetails(c), tail);
      var rest := AnchorDetails(c) + tail;
      assert rest[0] == '.';
      AnchorLocationExact(c.file, c.line, rest);
      AnchorDetailsExact(c.codeName, c.codeNumber, c.message, tail);
    }
  }

  /** The custom-error pattern, anchored at the start of `s`. */
  function MatchCustomAt(s: string): (r: Option<string>)
    ensures r.Some? ==> CustomMatchAt(s, r.value)
  {
    match LiteralRun(s, CUSTOM_ERROR, HexDigit, 1)
    case None => None
    case Some(hex) =>
      PrefixAndRest(CUSTOM_ERROR + hex.token, hex.rest);
      Some(hex.token)
  }

  lemma CustomMatcherExact(s: string, hex: string)
    ensures MatchCustomAt(s) == Some(hex) <==> CustomMatchAt(s, hex)
  {
    if CustomMatchAt(s, hex) {
      var tail := s[|CUSTOM_ERROR + hex|..];
      SplitAfterPrefix(s, CUSTOM_ERROR + hex);
      LiteralRunOf(CUSTOM_ERROR, hex, tail, HexDigit, 1);
    }
  }

  // ---------------------------------------------------------------------
  // The classifier.

  /** `parse_log_line`: the first pattern that matches decides the entry;
      numeric groups that do not fit their type become 0. */
  function ParseLogLine(line: string): (r: LogEntry)
    ensures r.Other? ==> r.message == line
    ensures r.Success? ==> IsSuccessLine(line, r.programId)
    ensures r.Failed? ==> IsFailedLine(line, r.programId, r.error)
    ensures r.Invoke? || r.Consumed? ==> IsProgramId(r.programId) && HasPrefix(line, PROGRAM + r.programId)
    ensures r.CustomError? ==> |r.hexCode| > 0 && AllIn(r.hexCode, HexDigit)
  {
    match MatchInvoke(line)
    case Some((id, depth)) => Invoke(id, ParseOrZero(depth, Decimal, U8_LIMIT))
    case None =>
    match MatchSuccess(line)
    case Some(id) => Success(id)
    case None =>
    match MatchFailed(line)
    case Some((id, error)) => Failed(id, error)
    case None =>
    match MatchConsumed(line)
    case Some((id, used, total)) =>
      Consumed(id, ParseOrZero(used, Decimal, U64_LIMIT), ParseOrZero(total, Decimal, U64_LIMIT))
    case None =>
    match LeftmostMatch(line, MatchAnchorAt)
    case Some((_, c)) =>
      AnchorError(c.file, ParseOrZero(c.line, Decimal, U32_LIMIT), c.codeName,
                  ParseOrZero(c.codeNumber, Decimal, U32_LIMIT), c.message)
    case None =>
    match LeftmostMatch(line, MatchCustomAt)
    case Some((_, hex)) => CustomError(hex)
    case None => Other(line)
  }

  /** A numeric group after `.parse().unwrap_or(0)`: its decimal value when
      that fits the field's type, otherwise 0. */
  function FieldValue(digits: string, limit: nat): nat
    requires IsDigits(digits)
  {
    if ValueOf(digits, Decimal) < limit then ValueOf(digits, Decimal) else 0
  }

  lemma ParseOrZeroDigits(digits: string, limit: nat)
    requires IsDigits(digits) && limit > 0
    ensures ParseOrZero(digits, Decimal, limit) == FieldValue(digits, limit)
  {
    ParseDigits(digits, Decimal, limit);
  }

  // Lines of the four `Program <id> ...` shapes other than `failed:` hold no colon.

  lemma NoColonInId(id: string)
    requires IsProgramId(id)
    ensures AllIn(id, NotColon)
  {
    forall i | 0 <= i < |id| ensures InClass(id[i], NotColon) {
      assert InClass(id[i], Base58);
    }
  }

  lemma NoColonInDigits(s: string)
    requires IsDigits(s)
    ensures AllIn(s, NotColon)
  {
    forall i | 0 <= i < |s| ensures InClass(s[i], NotColon) {
      assert InClass(s[i], Digit);
    }
  }

  lemma InvokeLineHasNoColon(line: string, id: string, depth: string)
    requires IsInvokeLine(line, id, depth)
    ensures AllIn(line, NotColon)
  {
    NoColonInId(id);
    NoColonInDigits(depth);
    AllInConcat(PROGRAM, id, NotColon);
    AllInConcat(PROGRAM + id, INVOKE, NotColon);
    AllInConcat(PROGRAM + id + INVOKE, depth, NotColon);
    AllInConcat(PROGRAM + id + INVOKE + depth, "]", NotColon);
  }

  lemma SuccessLineHasNoColon(line: string, id: string)
    requires IsSuccessLine(line, id)
    ensures AllIn(line, NotColon)
  {
    NoColonInId(id);
    AllInConcat(PROGRAM, id, NotColon);
    AllInConcat(PROGRAM + id, SUCCESS, NotColon);
  }

  lemma ConsumedLineHasNoColon(line: string, id: string, used: string, total: string)
    requires IsConsumedLine(line, id, used, total)
    ensures AllIn(line, NotColon)
  {
    NoColonInId(id);
    NoColonInDigits(used);
    NoColonInDigits(total);
    AllInConcat(PROGRAM, id, NotColon);
    AllInConcat(PROGRAM + id, CONSUMED, NotColon);
    AllInConcat(PROGRAM + id + CONSUMED, used, NotColon);
    AllInConcat(PROGRAM + id + CONSUMED + used, OF, NotColon);
    AllInConcat(PROGRAM + id + CONSUMED + used + OF, total, NotColon);
    AllInConcat(PROGRAM + id + CONSUMED + used + OF + total, COMPUTE_UNITS, NotColon);
  }

  /** A line holding a colon is none of the invoke, success or consumed
      shapes, whose lines hold no colon. */
  lemma ColonRulesOutColonFreeShapes(line: string)
    requires exists k | 0 <= k < |line| :: line[k] == ':'
    ensures MatchInvoke(line).None? && MatchSuccess(line).None? && MatchConsumed(line).None?
  {
    var k :| 0 <= k < |line| && line[k] == ':';
    match MatchInvoke(line) {
      case None =>
      case Some((id, depth)) => InvokeLineHasNoColon(line, id, depth);
    }
    match MatchSuccess(line) {
      case None =>
      case Some(id) => SuccessLineHasNoColon(line, id);
    }
    match MatchConsumed(line) {
      case None =>
      case Some((id, used, total)) => ConsumedLineHasNoColon(line, id, used, total);
    }
  }

  /** An Anchor error match holds the colon between file and line. */
  lemma AnchorMatchHasColon(line: string, i: nat, c: AnchorCaptures)
    requires i <= |line| && AnchorMatchAt(line[i..], c)
    ensures i + |ANCHOR_THROWN| + |c.file| < |line| && line[i + |ANCHOR_THROWN| + |c.file|] == ':'
  {
    var k := |ANCHOR_THROWN| + |c.file|;
    assert AnchorText(c)[k] == ':';
    assert line[i..][..|AnchorText(c)|] == AnchorText(c);
    assert line[i..][k] == line[i + k];
  }

  /** A custom-error match holds the colon after `custom program error`. */
  lemma CustomMatchHasColon(line: string, i: nat, hex: string)
    requires i <= |line| && CustomMatchAt(line[i..], hex)
    ensures i + CUSTOM_COLON < |line| && line[i + CUSTOM_COLON] == ':'
  {
    assert (CUSTOM_ERROR + hex)[CUSTOM_COLON] == ':';
    assert line[i..][..|CUSTOM_ERROR + hex|] == CUSTOM_ERROR + hex;
    assert line[i..][CUSTOM_COLON] == line[i + CUSTOM_COLON];
  }

  /** No line is of the `failed:` shape. */
  ghost predicate NotFailedLine(line: string) {
    forall id, error :: !IsFailedLine(line, id, error)
  }

  /** The line holds no match of the Anchor error pattern anywhere. */
  ghost predicate NoAnchorMatch(line: string) {
    forall j, c | 0 <= j <= |line| :: !AnchorMatchAt(line[j..], c)
  }

  ghost predicate NoCustomMatch(line: string) {
    forall j, hex | 0 <= j <= |line| :: !CustomMatchAt(line[j..], hex)
  }

  /** An invoke line is an `Invoke` entry; a depth past `u8::MAX` becomes 0. */
  lemma ClassifyInvoke(line: string, id: string, depth: string)
    requires IsInvokeLine(line, id, depth)
    ensures ParseLogLine(line) == Invoke(id, FieldValue(depth, U8_LIMIT))
  {
    InvokeMatcherExact(line, id, depth);
    ParseOrZeroDigits(depth, U8_LIMIT);
  }

  /** A depth the regex accepts but `u8` cannot hold, such as `[300]`, does
      not reject the line: the entry is an invoke at depth 0. */
  lemma OverflowingDepthIsZero(line: string, id: string, depth: string)
    requires IsInvokeLine(line, id, depth) && ValueOf(depth, Decimal) >= U8_LIMIT
    ensures ParseLogLine(line) == Invoke(id, 0)
  {
    ClassifyInvoke(line, id, depth);
  }

  /** Once the id is read, the first four patterns are told apart by the
      text after it. */
  lemma ProgramPatternsAfterId(line: string, id: string, after: string)
    requires MatchProgramHead(line) == Some(Split(id, after))
    ensures !HasPrefix(after, INVOKE) ==> MatchInvoke(line).None?
    ensures after != SUCCESS ==> MatchSuccess(line).None?
    ensures !HasPrefix(after, FAILED) ==> MatchFailed(line).None?
  {
  }

  lemma ClassifySuccess(line: string, id: string)
    requires IsSuccessLine(line, id)
    ensures ParseLogLine(line) == Success(id)
  {
    ProgramHeadOf(id, SUCCESS);
    ProgramPatternsAfterId(line, id, SUCCESS);
    SuccessMatcherExact(line, id);
  }

  lemma FailedLineIsNoEarlierShape(line: string, id: string, error: string)
    requires IsFailedLine(line, id, error)
    ensures MatchInvoke(line).None? && MatchSuccess(line).None?
  {
    Grouped3(PROGRAM + id, FAILED, error);
    ProgramHeadOf(id, FAILED + error);
    LiteralsDiffer(FAILED, error, INVOKE, 1);
    ProgramPatternsAfterId(line, id, FAILED + error);
  }

  /** A `failed:` line is a `Failed` entry even when its message holds an
      Anchor or custom error: that pattern comes first. */
  lemma ClassifyFailed(line: string, id: string, error: string)
    requires IsFailedLine(line, id, error)
    ensures ParseLogLine(line) == Failed(id, error)
  {
    FailedLineIsNoEarlierShape(line, id, error);
    FailedMatcherExact(line, id, error);
  }

  lemma ConsumedLineIsNoEarlierShape(line: string, id: string, used: string, total: string)
    requires IsConsumedLine(line, id, used, total)
    ensures MatchInvoke(line).None? && MatchSuccess(line).None? && MatchFailed(line).None?
  {
    var r2 := OF + total + COMPUTE_UNITS;
    var after := CONSUMED + used + r2;
    Chained3(line, PROGRAM, id, CONSUMED, used, OF, total, COMPUTE_UNITS, after, r2);
    ProgramHeadOf(id, after);
    Grouped3(CONSUMED, used, r2);
    LiteralsDiffer(CONSUMED, used + r2, INVOKE, 1);
    LiteralsDiffer(CONSUMED, used + r2, FAILED, 1);
    ProgramPatternsAfterId(line, id, after);
  }

  lemma ClassifyConsumed(line: string, id: string, used: string, total: string)
    requires IsConsumedLine(line, id, used, total)
    ensures ParseLogLine(line) == Consumed(id, FieldValue(used, U64_LIMIT), FieldValue(total, U64_LIMIT))
  {
    ConsumedLineIsNoEarlierShape(line, id, used, total);
    ConsumedMatcherExact(line, id, used, total);
    ParseOrZeroDigits(used, U64_LIMIT);
    ParseOrZeroDigits(total, U64_LIMIT);
  }

  /** Any other line whose leftmost Anchor error match is at `i` is an
      `AnchorError` entry; numbers that do not fit in 32 bits become 0. */
  lemma ClassifyAnchor(line: string, i: nat, c: AnchorCaptures)
    requires i <= |line| && AnchorMatchAt(line[i..], c)
    requires forall j, c' | 0 <= j < i :: !AnchorMatchAt(line[j..], c')
    requires NotFailedLine(line)
    ensures ParseLogLine(line) == AnchorError(c.file, FieldValue(c.line, U32_LIMIT), c.codeName,
                                              FieldValue(c.codeNumber, U32_LIMIT), c.message)
  {
    AnchorMatchHasColon(line, i, c);
    ColonRulesOutColonFreeShapes(line);
    assert MatchFailed(line).None?;
    AnchorMatcherExact(line[i..], c);
    assert forall j | 0 <= j < i :: MatchAnchorAt(line[j..]).None?;
    LeftmostMatchAt(line, MatchAnchorAt, i, c);
    ParseOrZeroDigits(c.line, U32_LIMIT);
    ParseOrZeroDigits(c.codeNumber, U32_LIMIT);
  }

  /** Any other line with no Anchor error match whose leftmost custom-error
      match is at `i` is a `CustomError` entry carrying the hex digits. */
  lemma ClassifyCustom(line: string, i: nat, hex: string)
    requires i <= |line| && CustomMatchAt(line[i..], hex)
    requires forall j, h | 0 <= j < i :: !CustomMatchAt(line[j..], h)
    requires NotFailedLine(line) && NoAnchorMatch(line)
    ensures ParseLogLine(line) == CustomError(hex)
  {
    CustomMatchHasColon(line, i, hex);
    ColonRulesOutColonFreeShapes(line);
    assert MatchFailed(line).None?;
    assert forall j | 0 <= j <= |line| :: MatchAnchorAt(line[j..]).None?;
    CustomMatcherExact(line[i..], hex);
    assert forall j | 0 <= j < i :: MatchCustomAt(line[j..]).None?;
    LeftmostMatchAt(line, MatchCustomAt, i, hex);
  }

  /** No pattern matches the line anywhere it is tried. */
  ghost predicate MatchesNoPattern(line: string) {
    && (forall id, depth :: !IsInvokeLine(line, id, depth))
    && (forall id :: !IsSuccessLine(line, id))
    && NotFailedLine(line)
    && (forall id, used, total :: !IsConsumedLine(line, id, used, total))
    && NoAnchorMatch(line)
    && NoCustomMatch(line)
  }

  /** Every matcher the classifier tries comes back empty. */
  predicate MatchersAllFail(line: string) {
    && MatchInvoke(line).None? && MatchSuccess(line).None?
    && MatchFailed(line).None? && MatchConsumed(line).None?
    && LeftmostMatch(line, MatchAnchorAt).None? && LeftmostMatch(line, MatchCustomAt).None?
  }

  lemma ProgramMatchersFail(line: string)
    requires MatchInvoke(line).None? && MatchSuccess(line).None?
    requires MatchFailed(line).None? && MatchConsumed(line).None?
    ensures forall id, depth :: !IsInvokeLine(line, id, depth)
    ensures forall id :: !IsSuccessLine(line, id)
    ensures NotFailedLine(line)
    ensures forall id, used, total :: !IsConsumedLine(line, id, used, total)
  {
    forall id, depth ensures !IsInvokeLine(line, id, depth) {
      InvokeMatcherExact(line, id, depth);
    }
    forall id ensures !IsSuccessLine(line, id) {
      SuccessMatcherExact(line, id);
    }
    forall id, error ensures !IsFailedLine(line, id, error) {
      FailedMatcherExact(line, id, error);
    }
    forall id, used, total ensures !IsConsumedLine(line, id, used, total) {
      ConsumedMatcherExact(line, id, used, total);
    }
  }

  lemma SearchesFail(line: string)
    requires LeftmostMatch(line, MatchAnchorAt).None? && LeftmostMatch(line, MatchCustomAt).None?
    ensures NoAnchorMatch(line) && NoCustomMatch(line)
  {
    forall j, c | 0 <= j <= |line| ensures !AnchorMatchAt(line[j..], c) {
      AnchorMatcherExact(line[j..], c);
    }
    forall j, hex | 0 <= j <= |line| ensures !CustomMatchAt(line[j..], hex) {
      CustomMatcherExact(line[j..], hex);
    }
  }

  lemma MatchersFailExactly(line: string)
    ensures MatchersAllFail(line) <==> MatchesNoPattern(line)
  {
    if MatchersAllFail(line) {
      ProgramMatchersFail(line);
      SearchesFail(line);
    }
  }

  /** A line falls through to `Other` exactly when no pattern matches it. */
  lemma ClassifyOther(line: string)
    ensures ParseLogLine(line).Other? <==> MatchesNoPattern(line)
  {
    assert ParseLogLine(line).Other? <==> MatchersAllFail(line);
    MatchersFailExactly(line);
  }

  /** `parse_logs`: one entry per line, in order. */
  function ParseLogs(lines: seq<string>): (r: seq<LogEntry>)
    ensures |r| == |lines|
    ensures forall i | 0 <= i < |lines| :: r[i] == ParseLogLine(lines[i])
  {
    MapSeq(ParseLogLine, lines)
  }

  // ---------------------------------------------------------------------
  // The lines of the tests in `src/log_parser.rs`.

  const SYSTEM_PROGRAM: string := "11111111111111111111111111111111"

  lemma SystemProgramIsId()
    ensures IsProgramId(SYSTEM_PROGRAM)
  {
  }

  /** `Program 11111111111111111111111111111111 invoke [1]` */
  lemma InvokeExample()
    ensures ParseLogLine(PROGRAM + SYSTEM_PROGRAM + INVOKE + "1" + "]") == Invoke(SYSTEM_PROGRAM, 1)
  {
    SystemProgramIsId();
    assert IsDigits("1") && ValueOf("1", Decimal) == 1;
    ClassifyInvoke(PROGRAM + SYSTEM_PROGRAM + INVOKE + "1" + "]", SYSTEM_PROGRAM, "1");
  }

  /** A line whose text after `Program ` does not begin with a 32-character
      id is of none of the four `Program <id> ...` shapes. */
  lemma ShortIdLine(line: string, word: string, after: string)
    requires line == PROGRAM + (word + after)
    requires AllIn(word, Base58) && |word| < 32 && StopsRun(after, Base58)
    ensures MatchProgramHead(line).None?
    ensures NotFailedLine(line)
  {
    StripPrefixOfConcat(PROGRAM, word + after);
    SpanOfSplit(word, after, Base58);
    forall id, error ensures !IsFailedLine(line, id, error) {
      FailedMatcherExact(line, id, error);
    }
  }

  /** The Anchor error of `test_parse_anchor_error`, written out by the program at
      `Program log: ` level. */
  const ANCHOR_EXAMPLE: AnchorCaptures := AnchorCaptures(
    "programs/myprogram/src/lib.rs", "42", "AmountTooLarge", "6001",
    "Amount must be less than or equal to 100")

  lemma AnchorExampleIsValid()
    ensures ValidAnchorCaptures(ANCHOR_EXAMPLE)
  {
  }

  lemma AnchorExampleNumbers()
    ensures ValueOf("42", Decimal) == 42
    ensures ValueOf("6001", Decimal) == 6001
  {
    assert "42"[..1] == "4";
    assert "4"[..0] == [];
    assert "6001"[..3] == "600" && "600"[..2] == "60" && "60"[..1] == "6" && "6"[..0] == [];
  }

  /** Text without an `A` holds no start of an Anchor error match. */
  lemma NoAnchorStartIn(lead: string, rest: string)
    requires forall k | 0 <= k < |lead| :: lead[k] != 'A'
    ensures forall j, c | 0 <= j < |lead| :: !AnchorMatchAt((lead + rest)[j..], c)
  {
    forall j, c | 0 <= j < |lead| ensures !AnchorMatchAt((lead + rest)[j..], c) {
      assert AnchorText(c)[0] == 'A';
      assert (lead + rest)[j..][0] == lead[j];
    }
  }

  /** What a program's `msg!` output is prefixed with. */
  const PROGRAM_LOG: string := "Program log: "

  lemma ProgramLogText()
    ensures PROGRAM_LOG == PROGRAM + "log: "
    ensures forall k | 0 <= k < |PROGRAM_LOG| :: PROGRAM_LOG[k] != 'A'
  {
  }

  /** An Anchor error as programs log it, after `Program log: `, is an
      `AnchorError` entry. */
  lemma ClassifyLoggedAnchor(c: AnchorCaptures)
    requires ValidAnchorCaptures(c)
    ensures ParseLogLine(PROGRAM_LOG + AnchorText(c))
         == AnchorError(c.file, FieldValue(c.line, U32_LIMIT), c.codeName,
                        FieldValue(c.codeNumber, U32_LIMIT), c.message)
  {
    var line := PROGRAM_LOG + AnchorText(c);
    LoggedAnchorMatchesAfterLead(c, line);
    LoggedAnchorNotFailed(c, line);
    ClassifyAnchor(line, |PROGRAM_LOG|, c);
  }

  lemma LoggedAnchorMatchesAfterLead(c: AnchorCaptures, line: string)
    requires ValidAnchorCaptures(c)
    requires line == PROGRAM_LOG + AnchorText(c)
    ensures |PROGRAM_LOG| <= |line| && AnchorMatchAt(line[|PROGRAM_LOG|..], c)
    ensures forall j, c' | 0 <= j < |PROGRAM_LOG| :: !AnchorMatchAt(line[j..], c')
  {
    ProgramLogText();
    PrefixAndRest(PROGRAM_LOG, AnchorText(c));
    PrefixAndRest(AnchorText(c), []);
    assert AnchorText(c) + [] == AnchorText(c);
    NoAnchorStartIn(PROGRAM_LOG, AnchorText(c));
  }

  lemma LoggedAnchorNotFailed(c: AnchorCaptures, line: string)
    requires line == PROGRAM_LOG + AnchorText(c)
    ensures NotFailedLine(line)
  {
    ProgramLogText();
    assert line == PROGRAM + ([] + ("log: " + AnchorText(c)));
    ShortIdLine(line, [], "log: " + AnchorText(c));
  }

  /** `Program log: AnchorError thrown in programs/myprogram/src/lib.rs:42. Error Code:
      AmountTooLarge. Error Number: 6001. Error Message: Amount must be less than or equal to 100` */
  lemma AnchorExample()
    ensures ParseLogLine(PROGRAM_LOG + AnchorText(ANCHOR_EXAMPLE))
         == AnchorError("programs/myprogram/src/lib.rs", 42, "AmountTooLarge", 6001,
                        "Amount must be less than or equal to 100")
  {
    AnchorExampleIsValid();
    AnchorExampleNumbers();
    ClassifyLoggedAnchor(ANCHOR_EXAMPLE);
  }

  /** `Program failed: custom program error: 0x1771`. The word after `Program `
      is not a program id, so the line is not of the `failed:` shape and the
      custom-error pattern decides. */
  lemma CustomExample()
    ensures ParseLogLine(CUSTOM_EXAMPLE) == CustomError("1771")
  {
    var line := CUSTOM_EXAMPLE;
    CustomExampleMatchesAfterLead(line);
    CustomExampleNotFailed(line);
    NoAnchorInCustomExample(line);
    ClassifyCustom(line, |FAILED_LEAD|, "1771");
  }

  /** The text before the custom-error message in that line. */
  const FAILED_LEAD: string := "Program failed: "

  const CUSTOM_EXAMPLE: string := FAILED_LEAD + CUSTOM_ERROR + "1771"

  lemma CustomExampleMatchesAfterLead(line: string)
    requires line == CUSTOM_EXAMPLE
    ensures |FAILED_LEAD| <= |line| && CustomMatchAt(line[|FAILED_LEAD|..], "1771")
    ensures forall j, h | 0 <= j < |FAILED_LEAD| :: !CustomMatchAt(line[j..], h)
  {
    var lead := FAILED_LEAD;
    assert line == lead + (CUSTOM_ERROR + "1771");
    PrefixAndRest(lead, CUSTOM_ERROR + "1771");
    PrefixAndRest(CUSTOM_ERROR + "1771", []);
    assert CUSTOM_ERROR + "1771" + [] == CUSTOM_ERROR + "1771";
    forall j, h | 0 <= j < |FAILED_LEAD| ensures !CustomMatchAt(line[j..], h) {
      assert (CUSTOM_ERROR + h)[0] == 'c';
      assert line[j..][0] == lead[j];
    }
  }

  lemma CustomExampleNotFailed(line: string)
    requires line == CUSTOM_EXAMPLE
    ensures NotFailedLine(line)
  {
    assert line == PROGRAM + ("fai" + ("led: " + CUSTOM_ERROR + "1771"));
    ShortIdLine(line, "fai", "led: " + CUSTOM_ERROR + "1771");
  }

  lemma NoAnchorInCustomExample(line: string)
    requires line == CUSTOM_EXAMPLE
    ensures NoAnchorMatch(line)
  {
    forall j, c | 0 <= j <= |line| ensures !AnchorMatchAt(line[j..], c) {
      assert AnchorText(c)[0] == 'A';
      if j < |line| {
        assert line[j..][0] == line[j];
      }
    }
  }
}
