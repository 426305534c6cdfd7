/** The error database (`src/decoder/registry.rs`) as an immutable value: the
    per-program tables keyed by program id, and the flat table of the Anchor
    framework's own errors. The Rust code loads it lazily from embedded JSON;
    here it is simply passed in. */
module Registry {
  import opened Wrappers
  import opened Numerals
  import opened Output

  datatype ErrorEntry = ErrorEntry(code: u32, name: string, msg: string)

  datatype ProgramErrors = ProgramErrors(name: string, errors: seq<ErrorEntry>)

  datatype ErrorDatabase = ErrorDatabase(
    programs: map<string, ProgramErrors>,
    anchorErrors: seq<ErrorEntry>)

  /** The attribution given to every entry of the framework table. */
  const ANCHOR_FRAMEWORK: string := "Anchor Framework"

  /** `i` is the position `iter().find(|e| e.code == code)` stops at. */
  predicate IsFirstWithCode(entries: seq<ErrorEntry>, code: u32, i: nat) {
    && i < |entries|
    && entries[i].code == code
    && forall j | 0 <= j < i :: entries[j].code != code
  }

  predicate HasCode(entries: seq<ErrorEntry>, code: u32) {
    exists i | 0 <= i < |entries| :: entries[i].code == code
  }

  lemma FirstWithCodeUnique(entries: seq<ErrorEntry>, code: u32, i: nat, k: nat)
    requires IsFirstWithCode(entries, code, i) && IsFirstWithCode(entries, code, k)
    ensures i == k
  {
  }

  /** `iter().find(|e| e.code == code)`, as the index of the entry found. */
  function FirstWithCode(entries: seq<ErrorEntry>, code: u32): (r: Option<nat>)
    ensures r.Some? ==> IsFirstWithCode(entries, code, r.value)
    ensures r.None? <==> !HasCode(entries, code)
  {
    if |entries| == 0 then None
    else if entries[0].code == code then Some(0)
    else
      match FirstWithCode(entries[1..], code)
      case Some(i) =>
        assert forall j | 1 <= j < i + 1 :: entries[j] == entries[1..][j - 1];
        Some(i + 1)
      case None =>
        assert forall j | 1 <= j < |entries| :: entries[j] == entries[1..][j - 1];
        None
  }

  /** The record the registry builds for a table entry, attributed to `owner`. */
  function EntryRecord(owner: string, e: ErrorEntry): (r: DecodedError)
    ensures WellFormed(r) && r.errorCode == e.code && r.programId == owner
    ensures r.errorName == Some(e.name) && r.errorMessage == Some(e.msg)
    ensures r.sourceFile.None? && r.sourceLine.None? && r.cpiDepth.None?
  {
    WithMessage(WithName(WithProgram(New(e.code), owner), e.name), e.msg)
  }

  /** `lookup_program_error`. */
  function LookupProgramError(db: ErrorDatabase, programId: string, code: u32): (r: Option<DecodedError>)
    ensures programId !in db.programs ==> r.None?
    ensures programId in db.programs ==> (r.Some? <==> HasCode(db.programs[programId].errors, code))
    ensures r.Some? ==> r.value.programId == programId && r.value.errorCode == code
    ensures r.Some? ==> WellFormed(r.value)
  {
    if programId in db.programs then
      var errors := db.programs[programId].errors;
      match FirstWithCode(errors, code)
      case Some(i) => Some(EntryRecord(programId, errors[i]))
      case None => None
    else None
  }

  /** A hit is the first entry of the program's list with that code. */
  lemma LookupProgramErrorFirst(db: ErrorDatabase, programId: string, code: u32, i: nat)
    requires programId in db.programs
    requires IsFirstWithCode(db.programs[programId].errors, code, i)
    ensures LookupProgramError(db, programId, code)
         == Some(EntryRecord(programId, db.programs[programId].errors[i]))
  {
    var errors := db.programs[programId].errors;
    var k := FirstWithCode(errors, code);
    assert k.Some? by {
      assert errors[i].code == code;
    }
    FirstWithCodeUnique(errors, code, i, k.value);
  }

  /** `lookup_anchor_error`. */
  function LookupAnchorError(db: ErrorDatabase, code: u32): (r: Option<DecodedError>)
    ensures r.Some? <==> HasCode(db.anchorErrors, code)
    ensures r.Some? ==> r.value.programId == ANCHOR_FRAMEWORK && r.value.errorCode == code
    ensures r.Some? ==> WellFormed(r.value)
  {
    match FirstWithCode(db.anchorErrors, code)
    case Some(i) => Some(EntryRecord(ANCHOR_FRAMEWORK, db.anchorErrors[i]))
    case None => None
  }

  lemma LookupAnchorErrorFirst(db: ErrorDatabase, code: u32, i: nat)
    requires IsFirstWithCode(db.anchorErrors, code, i)
    ensures LookupAnchorError(db, code) == Some(EntryRecord(ANCHOR_FRAMEWORK, db.anchorErrors[i]))
  {
    var k := FirstWithCode(db.anchorErrors, code);
    assert k.Some? by {
      assert db.anchorErrors[i].code == code;
    }
    FirstWithCodeUnique(db.anchorErrors, code, i, k.value);
  }

  /** The records of a program's table, one per entry, in table order. */
  function RecordsFor(owner: string, errors: seq<ErrorEntry>): (r: seq<DecodedError>)
    ensures |r| == |errors|
    ensures forall i | 0 <= i < |r| :: r[i] == EntryRecord(owner, errors[i])
  {
    if |errors| == 0 then []
    else RecordsFor(owner, errors[..|errors| - 1]) + [EntryRecord(owner, errors[|errors| - 1])]
  }

  /** `order` is the iteration order of the program map: it lists its keys. */
  predicate IsKeyOrder(db: ErrorDatabase, order: seq<string>) {
    && (forall i | 0 <= i < |order| :: order[i] in db.programs)
    && (forall k | k in db.programs :: k in order)
  }

  /** `recs` lists the table of `pid`, attributed to `pid`, entry by entry. */
  predicate ListsProgram(db: ErrorDatabase, pid: string, recs: seq<DecodedError>) {
    && pid in db.programs
    && |recs| == |db.programs[pid].errors|
    && forall i | 0 <= i < |recs| :: recs[i] == EntryRecord(pid, db.programs[pid].errors[i])
  }

  /** The first program id in iteration order whose program carries `name`. */
  function FirstNamed(db: ErrorDatabase, order: seq<string>, name: string): (r: Option<nat>)
    requires forall i | 0 <= i < |order| :: order[i] in db.programs
    ensures r.Some? ==> r.value < |order| && db.programs[order[r.value]].name == name
    ensures r.Some? ==> forall j | 0 <= j < r.value :: db.programs[order[j]].name != name
    ensures r.None? ==> forall j | 0 <= j < |order| :: db.programs[order[j]].name != name
  {
    if |order| == 0 then None
    else if db.programs[order[0]].name == name then Some(0)
    else
      match FirstNamed(db, order[1..], name)
      case Some(i) =>
        assert forall j | 1 <= j < i + 1 :: order[j] == order[1..][j - 1];
        Some(i + 1)
      case None =>
        assert forall j | 1 <= j < |order| :: order[j] == order[1..][j - 1];
        None
  }

  /** `list_program_errors`: the argument is tried as a program id first and
      only then as a program name; `order` is the map's iteration order, which
      decides between programs that share a name. */
  function ListProgramErrors(db: ErrorDatabase, idOrName: string, order: seq<string>): (r: Option<seq<DecodedError>>)
    requires IsKeyOrder(db, order)
    ensures idOrName in db.programs ==> r.Some? && ListsProgram(db, idOrName, r.value)
    ensures idOrName !in db.programs ==>
      (r.Some? <==> exists pid | pid in db.programs :: db.programs[pid].name == idOrName)
    ensures idOrName !in db.programs && r.Some? ==>
      exists pid | pid in db.programs :: db.programs[pid].name == idOrName && ListsProgram(db, pid, r.value)
  {
    if idOrName in db.programs then
      Some(RecordsFor(idOrName, db.programs[idOrName].errors))
    else
      match FirstNamed(db, order, idOrName)
      case Some(i) =>
        var pid := order[i];
        Some(RecordsFor(pid, db.programs[pid].errors))
      case None =>
        assert forall pid | pid in db.programs :: db.programs[pid].name != idOrName by {
          forall pid | pid in db.programs
            ensures db.programs[pid].name != idOrName
          {
            var j :| 0 <= j < |order| && order[j] == pid;
          }
        }
        None
  }

  /** When program names are unique, the iteration order cannot show. */
  lemma ListIgnoresOrderForUniqueNames(db: ErrorDatabase, idOrName: string, o1: seq<string>, o2: seq<string>)
    requires IsKeyOrder(db, o1) && IsKeyOrder(db, o2)
    requires forall p, q | p in db.programs && q in db.programs && p != q :: db.programs[p].name != db.programs[q].name
    ensures ListProgramErrors(db, idOrName, o1) == ListProgramErrors(db, idOrName, o2)
  {
    var r1 := ListProgramErrors(db, idOrName, o1);
    var r2 := ListProgramErrors(db, idOrName, o2);
    if idOrName !in db.programs && r1.Some? {
      var p :| p in db.programs && db.programs[p].name == idOrName && ListsProgram(db, p, r1.value);
      var q :| q in db.programs && db.programs[q].name == idOrName && ListsProgram(db, q, r2.value);
      assert p == q;
      assert r1.value == r2.value;
    }
  }

  /** `get_program_name`. */
  function GetProgramName(db: ErrorDatabase, programId: string): (r: Option<string>)
    ensures r.Some? <==> programId in db.programs
    ensures r.Some? ==> r.value == db.programs[programId].name
  {
    if programId in db.programs then Some(db.programs[programId].name) else None
  }
}
