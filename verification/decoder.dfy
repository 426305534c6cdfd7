/** The error resolver `decode_error` (`src/decoder/mod.rs`): four tiers,
    first success wins — the framework table for codes below 6000, the
    program's own table, the generic custom-error record for codes from 6000
    up, and finally an `Unknown` record. */
module Decoder {
  import opened Wrappers
  import opened Numerals
  import opened Output
  import opened Registry
  import opened Anchor

  /** The attribution of a fallback record: the program if one was given,
      otherwise the empty (unattributed) id. */
  function Attribution(programId: Option<string>): string {
    if programId.Some? then programId.value else []
  }

  /** Credit a record to the program the caller named, if it named one; with
      no program the record keeps the id it already had. */
  function Attribute(e: DecodedError, programId: Option<string>): (r: DecodedError)
    ensures r.programId == (if programId.Some? then programId.value else e.programId)
    ensures r.(programId := e.programId) == e
    ensures WellFormed(e) ==> WellFormed(r)
  {
    if programId.Some? then WithProgram(e, programId.value) else e
  }

  /** `decode_error`. */
  function DecodeError(db: ErrorDatabase, code: u32, programId: Option<string>): (r: DecodedError)
    ensures WellFormed(r) && r.errorCode == code
    ensures r.sourceFile.None? && r.sourceLine.None? && r.cpiDepth.None?
    ensures r.errorName.Some? && r.errorMessage.Some?
    ensures r.programId == ANCHOR_FRAMEWORK || r.programId == Attribution(programId)
  {
    var anchorHit := if code < ANCHOR_ERROR_OFFSET then LookupAnchorError(db, code) else None;
    if anchorHit.Some? then anchorHit.value
    else
      var programHit := if programId.Some? then LookupProgramError(db, programId.value, code) else None;
      if programHit.Some? then programHit.value
      else if IsAnchorCustomError(code) then Attribute(DecodeAnchorCustom(code), programId)
      else Attribute(WithMessage(WithName(New(code), "Unknown"), "Unknown error code"), programId)
  }

  /** Tier 1: below 6000 a framework entry wins, and the program table is
      never consulted, whichever program is named. */
  lemma FrameworkTierWins(db: ErrorDatabase, code: u32, programId: Option<string>, i: nat)
    requires code < ANCHOR_ERROR_OFFSET
    requires IsFirstWithCode(db.anchorErrors, code, i)
    ensures DecodeError(db, code, programId) == EntryRecord(ANCHOR_FRAMEWORK, db.anchorErrors[i])
  {
    LookupAnchorErrorFirst(db, code, i);
  }

  /** Tier 2: otherwise a curated entry of the named program wins, also for
      codes from 6000 up. */
  lemma ProgramTierWins(db: ErrorDatabase, code: u32, programId: string, i: nat)
    requires code >= ANCHOR_ERROR_OFFSET || !HasCode(db.anchorErrors, code)
    requires programId in db.programs
    requires IsFirstWithCode(db.programs[programId].errors, code, i)
    ensures DecodeError(db, code, Some(programId)) == EntryRecord(programId, db.programs[programId].errors[i])
  {
    LookupProgramErrorFirst(db, programId, code, i);
  }

  /** No entry of the named program (or no program at all) has the code. */
  predicate NoProgramEntry(db: ErrorDatabase, code: u32, programId: Option<string>) {
    programId.None? || programId.value !in db.programs || !HasCode(db.programs[programId.value].errors, code)
  }

  /** Tier 3: an unlisted code from 6000 up gets the generic custom-error
      record for its variant index, attributed to the program if given. */
  lemma CustomTierFallback(db: ErrorDatabase, code: u32, programId: Option<string>)
    requires code >= ANCHOR_ERROR_OFFSET
    requires NoProgramEntry(db, code, programId)
    ensures DecodeError(db, code, programId).programId == Attribution(programId)
    ensures DecodeError(db, code, programId).errorName == Some(CustomErrorName(code - ANCHOR_ERROR_OFFSET))
    ensures DecodeError(db, code, programId).errorMessage == Some(CustomErrorMessage(code - ANCHOR_ERROR_OFFSET))
  {
  }

  /** Tier 4: an unlisted code below 6000 is `Unknown`. */
  lemma UnknownTierFallback(db: ErrorDatabase, code: u32, programId: Option<string>)
    requires code < ANCHOR_ERROR_OFFSET
    requires !HasCode(db.anchorErrors, code)
    requires NoProgramEntry(db, code, programId)
    ensures DecodeError(db, code, programId).programId == Attribution(programId)
    ensures DecodeError(db, code, programId).errorName == Some("Unknown")
    ensures DecodeError(db, code, programId).errorMessage == Some("Unknown error code")
  {
  }

  /** Code 6001 (`0x1771`) with nothing in the database: variant 1 of the
      program's own errors. */
  lemma CustomExample()
    ensures DecodeError(ErrorDatabase(map[], []), 6001, None).errorName == Some("CustomError[1]")
    ensures DecodeError(ErrorDatabase(map[], []), 6001, None).errorMessage
         == Some("Custom program error at variant index 1")
    ensures DecodeError(ErrorDatabase(map[], []), 6001, None).errorHex == "0x1771"
  {
    var db := ErrorDatabase(map[], []);
    CustomTierFallback(db, 6001, None);
    CustomNamesOfVariant1();
    HexOf6001();
  }
}
