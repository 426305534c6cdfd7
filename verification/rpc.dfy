/** The scan over a transaction's log messages (`src/rpc.rs`, after the
    fetch): every line is classified, the program and depth of the most
    recent invoke line are remembered, and each error-bearing entry becomes
    one decoded record. Fetching the transaction is not modelled; the log
    lines are the input. */
module Rpc {
  import opened Wrappers
  import opened Text
  import opened Numerals
  import opened Output
  import opened Registry
  import opened Decoder
  import opened LogParser

  /** What the scan remembers between entries. */
  datatype ScanState = ScanState(program: Option<string>, depth: u8)

  /** No program seen yet, depth zero. */
  const START: ScanState := ScanState(None, 0)

  /** `No errors found in transaction`. */
  datatype ScanError = NoErrorsFound

  /** The code a custom-error line carries: its hex digits read in base 16,
      or 0 when they do not form a 32-bit number. */
  function HexCode(hex: string): (code: u32)
    ensures var d := Unsigned(hex);
      |d| > 0 && AllIn(d, HexDigit) && ValueOf(d, Hexadecimal) < U32_LIMIT ==> code == ValueOf(d, Hexadecimal)
    ensures var d := Unsigned(hex);
      !(|d| > 0 && AllIn(d, HexDigit) && ValueOf(d, Hexadecimal) < U32_LIMIT) ==> code == 0
  {
    ParseOrZero(hex, Hexadecimal, U32_LIMIT)
  }

  /** A run of hex digits is read positionally; one too large for 32 bits
      silently becomes code 0. */
  lemma HexCodeOfDigits(hex: string)
    requires |hex| > 0 && AllIn(hex, HexDigit)
    ensures ValueOf(hex, Hexadecimal) < U32_LIMIT ==> HexCode(hex) == ValueOf(hex, Hexadecimal)
    ensures ValueOf(hex, Hexadecimal) >= U32_LIMIT ==> HexCode(hex) == 0
  {
    ParseDigits(hex, Hexadecimal, U32_LIMIT);
  }

  /** The entries the scan turns into a record: Anchor errors, custom-error
      lines, and `failed:` lines whose message is a custom program error. */
  predicate Emits(e: LogEntry) {
    e.AnchorError? || e.CustomError? || (e.Failed? && HasPrefix(e.error, CUSTOM_ERROR))
  }

  /** The state after `e`: only an invoke line moves it. */
  function Advance(st: ScanState, e: LogEntry): ScanState {
    if e.Invoke? then ScanState(Some(e.programId), e.depth) else st
  }

  /** The record the loop body pushes for `e` in state `st`, if any. */
  function Emit(db: ErrorDatabase, st: ScanState, e: LogEntry): (r: Option<DecodedError>)
    ensures r.Some? <==> Emits(e)
    ensures r.Some? ==> WellFormed(r.value) && r.value.cpiDepth == Some(st.depth)
    ensures e.AnchorError? ==>
      && r.value.errorCode == e.codeNumber
      && r.value.errorName == Some(e.codeName) && r.value.errorMessage == Some(e.message)
      && r.value.sourceFile == Some(e.file) && r.value.sourceLine == Some(e.line)
      && r.value.programId == Attribution(st.program)
    ensures e.CustomError? ==>
      r.value.(cpiDepth := None) == DecodeError(db, HexCode(e.hexCode), st.program)
    ensures e.Failed? && r.Some? ==>
      r.value.(cpiDepth := None) == DecodeError(db, HexCode(e.error[|CUSTOM_ERROR|..]), Some(e.programId))
  {
    match e
    case AnchorError(file, line, codeName, codeNumber, message) =>
      var rec := WithCpiDepth(WithSource(WithMessage(WithName(New(codeNumber), codeName), message), file, line), st.depth);
      Some(Attribute(rec, st.program))
    case CustomError(hex) =>
      Some(WithCpiDepth(DecodeError(db, HexCode(hex), st.program), st.depth))
    case Failed(pid, message) =>
      (match StripPrefix(message, CUSTOM_ERROR)
       case Some(hex) => Some(WithCpiDepth(DecodeError(db, HexCode(hex), Some(pid)), st.depth))
       case None => None)
    case _ => None
  }

  /** A `failed:` line names its own program, so the record does not depend on
      which program the scan last saw invoked. */
  lemma FailedIgnoresCurrentProgram(db: ErrorDatabase, st1: ScanState, st2: ScanState, e: LogEntry)
    requires e.Failed? && st1.depth == st2.depth
    ensures Emit(db, st1, e) == Emit(db, st2, e)
  {
  }

  /** The position of the last invoke line among `entries`, if any. */
  function LastInvoke(entries: seq<LogEntry>): (r: Option<nat>)
    ensures r.Some? ==> r.value < |entries| && entries[r.value].Invoke?
    ensures r.Some? ==> forall j | r.value < j < |entries| :: !entries[j].Invoke?
    ensures r.None? ==> forall j | 0 <= j < |entries| :: !entries[j].Invoke?
  {
    if |entries| == 0 then None
    else if entries[|entries| - 1].Invoke? then Some(|entries| - 1)
    else
      var r := LastInvoke(entries[..|entries| - 1]);
      assert forall j | 0 <= j < |entries| - 1 :: entries[j] == entries[..|entries| - 1][j];
      r
  }

  /** The reference for the scan's state: the program and depth of the last
      invoke line so far, not a call stack, so a return does not restore the
      caller's depth. */
  function StateAfter(entries: seq<LogEntry>): ScanState {
    match LastInvoke(entries)
    case None => START
    case Some(k) => ScanState(Some(entries[k].programId), entries[k].depth)
  }

  /** The last invoke line is decided by the entries alone. */
  lemma LastInvokeUnique(entries: seq<LogEntry>, k: nat)
    requires k < |entries| && entries[k].Invoke?
    requires forall j | k < j < |entries| :: !entries[j].Invoke?
    ensures LastInvoke(entries) == Some(k)
  {
  }

  /** Advancing the state by one entry agrees with the reference. */
  lemma StateAfterStep(entries: seq<LogEntry>, i: nat)
    requires i < |entries|
    ensures StateAfter(entries[..i + 1]) == Advance(StateAfter(entries[..i]), entries[i])
  {
    var pre := entries[..i];
    var ext := entries[..i + 1];
    assert ext[i] == entries[i];
    assert forall j | 0 <= j < i :: ext[j] == pre[j];
    if entries[i].Invoke? {
      LastInvokeUnique(ext, i);
    } else {
      match LastInvoke(pre)
      case Some(k) =>
        LastInvokeUnique(ext, k);
      case None =>
        assert LastInvoke(ext).None?;
    }
  }

  /** The records pushed for the entries, one per emitting entry, each decoded
      in the state the entries before it leave. */
  function Collected(db: ErrorDatabase, entries: seq<LogEntry>): seq<DecodedError> {
    if |entries| == 0 then []
    else
      var pre := entries[..|entries| - 1];
      match Emit(db, StateAfter(pre), entries[|entries| - 1])
      case Some(rec) => Collected(db, pre) + [rec]
      case None => Collected(db, pre)
  }

  /** The positions of the emitting entries, in order. */
  function Origins(entries: seq<LogEntry>): (r: seq<nat>)
    ensures forall k | 0 <= k < |r| :: r[k] < |entries| && Emits(entries[r[k]])
    ensures forall k, l | 0 <= k < l < |r| :: r[k] < r[l]
    ensures forall i | 0 <= i < |entries| && Emits(entries[i]) :: i in r
  {
    if |entries| == 0 then []
    else
      var pre := entries[..|entries| - 1];
      var r := Origins(pre);
      assert forall j | 0 <= j < |pre| :: pre[j] == entries[j];
      if Emits(entries[|entries| - 1]) then r + [|entries| - 1] else r
  }

  /** Record `k` comes from the `k`-th emitting entry, decoded in the state the
      entries before that one leave. */
  lemma {:induction false} CollectedPerOrigin(db: ErrorDatabase, entries: seq<LogEntry>)
    ensures |Collected(db, entries)| == |Origins(entries)|
    ensures forall k | 0 <= k < |Origins(entries)| ::
      Emit(db, StateAfter(entries[..Origins(entries)[k]]), entries[Origins(entries)[k]])
        == Some(Collected(db, entries)[k])
  {
    if |entries| > 0 {
      var n := |entries| - 1;
      var pre := entries[..n];
      CollectedPerOrigin(db, pre);
      var o := Origins(pre);
      forall k | 0 <= k < |o|
        ensures entries[..o[k]] == pre[..o[k]] && entries[o[k]] == pre[o[k]]
      {
      }
      assert entries[..n] == pre;
    }
  }

  /** Every record carries its code's hex text, a complete-or-absent source
      location and the call depth it was raised at. */
  lemma CollectedWellFormed(db: ErrorDatabase, entries: seq<LogEntry>)
    ensures forall k | 0 <= k < |Collected(db, entries)| ::
      WellFormed(Collected(db, entries)[k]) && Collected(db, entries)[k].cpiDepth.Some?
  {
    CollectedPerOrigin(db, entries);
  }

  /** The scan finds nothing exactly when no entry emits. */
  lemma CollectedEmptyIff(db: ErrorDatabase, entries: seq<LogEntry>)
    ensures |Collected(db, entries)| == 0 <==> forall i | 0 <= i < |entries| :: !Emits(entries[i])
  {
    CollectedPerOrigin(db, entries);
    if |Origins(entries)| > 0 {
      assert Emits(entries[Origins(entries)[0]]);
    }
  }

  /** Later entries only append: what was found in a prefix stays first. */
  lemma {:induction false} CollectedPrefix(db: ErrorDatabase, entries: seq<LogEntry>, i: nat)
    requires i <= |entries|
    ensures Collected(db, entries[..i]) <= Collected(db, entries)
    decreases |entries|
  {
    if i < |entries| {
      var pre := entries[..|entries| - 1];
      assert pre[..i] == entries[..i];
      CollectedPrefix(db, pre, i);
    } else {
      assert entries[..i] == entries;
    }
  }

  /** The loop of `fetch_transaction_errors` over the classified entries:
      keep the current program and depth, push a record for each emitting
      entry, and fail if nothing was found. */
  method ScanEntries(db: ErrorDatabase, entries: seq<LogEntry>) returns (r: Result<seq<DecodedError>, ScanError>)
    ensures r.Err? <==> forall i | 0 <= i < |entries| :: !Emits(entries[i])
    ensures r.Ok? ==> r.value == Collected(db, entries)
    ensures r.Ok? ==> forall k | 0 <= k < |r.value| :: WellFormed(r.value[k]) && r.value[k].cpiDepth.Some?
  {
    var errors: seq<DecodedError> := [];
    var st := START;
    for i := 0 to |entries|
      invariant st == StateAfter(entries[..i])
      invariant errors == Collected(db, entries[..i])
    {
      StateAfterStep(entries, i);
      assert entries[..i + 1][..i] == entries[..i];
      var rec := Emit(db, st, entries[i]);
      if rec.Some? {
        errors := errors + [rec.value];
      }
      st := Advance(st, entries[i]);
    }
    assert entries[..|entries|] == entries;
    CollectedEmptyIff(db, entries);
    CollectedWellFormed(db, entries);
    if |errors| == 0 {
      return Err(NoErrorsFound);
    }
    return Ok(errors);
  }

  /** `fetch_transaction_errors` once the log lines are in hand: classify
      every line, then scan. */
  method ScanLogs(db: ErrorDatabase, lines: seq<string>) returns (r: Result<seq<DecodedError>, ScanError>)
    ensures r.Err? <==> forall i | 0 <= i < |lines| :: !Emits(ParseLogLine(lines[i]))
    ensures r.Ok? ==> r.value == Collected(db, ParseLogs(lines))
    ensures r.Ok? ==> forall k | 0 <= k < |r.value| :: WellFormed(r.value[k]) && r.value[k].cpiDepth.Some?
  {
    var entries := ParseLogs(lines);
    r := ScanEntries(db, entries);
  }

  /** The SPL Token program's id. */
  const TOKEN_PROGRAM: string := "TokenkegQfeZyiNwAJbNbGKPFXCWuBvf9Ss623VQ5DA"

  /** A nested program returns and its caller then fails: the record still
      carries the callee's id and depth, the last invoke seen. */
  lemma StaleDepthAfterReturn(db: ErrorDatabase, e: LogEntry)
    requires e.AnchorError? || e.CustomError?
    ensures var st := StateAfter([Invoke(TOKEN_PROGRAM, 1), Invoke(SYSTEM_PROGRAM, 2), Success(SYSTEM_PROGRAM)]);
      st == ScanState(Some(SYSTEM_PROGRAM), 2) && Emit(db, st, e).value.cpiDepth == Some(2)
  {
    LastInvokeUnique([Invoke(TOKEN_PROGRAM, 1), Invoke(SYSTEM_PROGRAM, 2), Success(SYSTEM_PROGRAM)], 1);
  }
}
