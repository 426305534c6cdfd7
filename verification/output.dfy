/** The decoded-error record and its fluent builder (`src/output.rs`). The
    record's `errorHex` is derived from `errorCode` when the record is created
    and no builder step can set either, so every record built this way keeps
    the two in step. */
module Output {
  import opened Wrappers
  import opened Numerals

  datatype DecodedError = DecodedError(
    programId: string,
    errorCode: u32,
    errorHex: string,
    errorName: Option<string>,
    errorMessage: Option<string>,
    sourceFile: Option<string>,
    sourceLine: Option<u32>,
    cpiDepth: Option<u8>)

  /** `error_hex` is `0x` followed by the lower-case hex of `error_code`. */
  predicate HexMatchesCode(e: DecodedError) {
    e.errorHex == "0x" + HexString(e.errorCode)
  }

  /** A source location is either complete (file and line) or absent. */
  predicate SourcePaired(e: DecodedError) {
    e.sourceFile.Some? <==> e.sourceLine.Some?
  }

  /** The invariant of every record the builder produces. */
  predicate WellFormed(e: DecodedError) {
    HexMatchesCode(e) && SourcePaired(e)
  }

  /** `DecodedError::new`: an unattributed record carrying only the code. */
  function New(code: u32): (r: DecodedError)
    ensures WellFormed(r)
    ensures r.errorCode == code && r.programId == []
    ensures r.errorName.None? && r.errorMessage.None?
    ensures r.sourceFile.None? && r.sourceLine.None? && r.cpiDepth.None?
  {
    DecodedError([], code, "0x" + HexString(code), None, None, None, None, None)
  }

  /** `with_program`: sets the attribution and nothing else. */
  function WithProgram(e: DecodedError, programId: string): (r: DecodedError)
    ensures r.programId == programId
    ensures r.errorCode == e.errorCode && r.errorHex == e.errorHex
    ensures r.errorName == e.errorName && r.errorMessage == e.errorMessage
    ensures r.sourceFile == e.sourceFile && r.sourceLine == e.sourceLine
    ensures r.cpiDepth == e.cpiDepth
    ensures WellFormed(e) ==> WellFormed(r)
  {
    e.(programId := programId)
  }

  /** `with_name`: sets the name and nothing else. */
  function WithName(e: DecodedError, name: string): (r: DecodedError)
    ensures r.errorName == Some(name)
    ensures r.programId == e.programId
    ensures r.errorCode == e.errorCode && r.errorHex == e.errorHex
    ensures r.errorMessage == e.errorMessage
    ensures r.sourceFile == e.sourceFile && r.sourceLine == e.sourceLine
    ensures r.cpiDepth == e.cpiDepth
    ensures WellFormed(e) ==> WellFormed(r)
  {
    e.(errorName := Some(name))
  }

  /** `with_message`: sets the message and nothing else. */
  function WithMessage(e: DecodedError, message: string): (r: DecodedError)
    ensures r.errorMessage == Some(message)
    ensures r.programId == e.programId
    ensures r.errorCode == e.errorCode && r.errorHex == e.errorHex
    ensures r.errorName == e.errorName
    ensures r.sourceFile == e.sourceFile && r.sourceLine == e.sourceLine
    ensures r.cpiDepth == e.cpiDepth
    ensures WellFormed(e) ==> WellFormed(r)
  {
    e.(errorMessage := Some(message))
  }

  /** `with_source`: sets file and line together, so the pair stays complete. */
  function WithSource(e: DecodedError, file: string, line: u32): (r: DecodedError)
    ensures r.sourceFile == Some(file) && r.sourceLine == Some(line)
    ensures r.programId == e.programId
    ensures r.errorCode == e.errorCode && r.errorHex == e.errorHex
    ensures r.errorName == e.errorName && r.errorMessage == e.errorMessage
    ensures r.cpiDepth == e.cpiDepth
    ensures HexMatchesCode(e) ==> WellFormed(r)
  {
    e.(sourceFile := Some(file), sourceLine := Some(line))
  }

  /** `with_cpi_depth`: sets the depth and nothing else. */
  function WithCpiDepth(e: DecodedError, depth: u8): (r: DecodedError)
    ensures r.cpiDepth == Some(depth)
    ensures r.programId == e.programId
    ensures r.errorCode == e.errorCode && r.errorHex == e.errorHex
    ensures r.errorName == e.errorName && r.errorMessage == e.errorMessage
    ensures r.sourceFile == e.sourceFile && r.sourceLine == e.sourceLine
    ensures WellFormed(e) ==> WellFormed(r)
  {
    e.(cpiDepth := Some(depth))
  }

  /** One builder step, as data, so that a whole chain can be talked about. */
  datatype BuildStep =
    | SetProgram(programId: string)
    | SetName(name: string)
    | SetMessage(message: string)
    | SetSource(file: string, line: u32)
    | SetCpiDepth(depth: u8)

  function Apply(e: DecodedError, step: BuildStep): DecodedError {
    match step
    case SetProgram(p) => WithProgram(e, p)
    case SetName(n) => WithName(e, n)
    case SetMessage(m) => WithMessage(e, m)
    case SetSource(f, l) => WithSource(e, f, l)
    case SetCpiDepth(d) => WithCpiDepth(e, d)
  }

  /** `DecodedError::new(code)` followed by the builder calls in `steps`. */
  function Build(code: u32, steps: seq<BuildStep>): DecodedError {
    if |steps| == 0 then New(code)
    else Apply(Build(code, steps[..|steps| - 1]), steps[|steps| - 1])
  }

  /** Whatever chain of builder calls follows `new(code)`, the result carries
      `code`, its matching hex text, and a complete-or-absent source location. */
  lemma {:induction false} BuildKeepsInvariant(code: u32, steps: seq<BuildStep>)
    ensures Build(code, steps).errorCode == code
    ensures WellFormed(Build(code, steps))
    decreases |steps|
  {
    if |steps| > 0 {
      BuildKeepsInvariant(code, steps[..|steps| - 1]);
    }
  }
}
