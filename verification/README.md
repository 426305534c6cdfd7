# Solana program-error decoder, modelled in Dafny

This project models the core of a command-line decoder for Solana program
errors:

- **Log lines.** It classifies the lines of a transaction log: program
  invocations, successes, failures, compute-unit reports, Anchor error reports
  and custom program errors.
- **Transaction scan.** It walks a transaction's log, remembering the program
  and cross-program-invocation (CPI) depth of the most recent invocation, and
  turns every Anchor error line, every custom-error line and every `failed:`
  line whose message is a custom program error into a decoded-error record.
  Other `failed:` lines, such as `Program <id> failed: insufficient funds`,
  yield no record.
- **Error codes.** It resolves a numeric error code against an error database
  in four tiers: the Anchor framework's own errors below 6000, the named
  program's table, the generic Anchor custom error for codes from 6000 up,
  and `Unknown`.
- **Code input.** It parses codes typed by a user (`0x1771` or `6001`) and
  picks codes out of lines read from standard input.

Modules follow the Rust files:

| module | file | models |
|---|---|---|
| `LogParser` | `log_parser.dfy` | The log line classifier. |
| `Anchor` | `anchor.dfy` | The Anchor custom-error convention and the code parser. |
| `Output` | `output.dfy` | The decoded-error record and its builder. |
| `Registry` | `registry.dfy` | The error database lookups. |
| `Decoder` | `decoder.dfy` | The four-tier resolver. |
| `Rpc` | `rpc.dfy` | The scan over a transaction's log. |
| `StdinDecode` | `stdin_decode.dfy` | The per-line decision of the stdin mode. |
| `Text` | `text.dfy` | The operations of Rust's `str` API that the Rust code uses, as functions of their own. |
| `Numerals` | `numerals.dfy` | The integer parsing and formatting of Rust's standard library that the Rust code uses, as functions of their own. |
| `Wrappers` | `wrappers.dfy` | `Option`, `Result` and an order-preserving map. |

Each regular expression of the log parser is a hand-written matcher over
`seq<char>`. Each matcher comes with two things:

- a predicate describing, as a concatenation, exactly the lines the pattern
  accepts;
- an "exact" lemma proving the matcher succeeds on precisely those lines,
  with the same capture groups.

The two unanchored patterns (Anchor error, custom error) are searched
leftmost-first, as the regex engine does. The classifier tries the six
patterns in the order `parse_log_line` tries them. One lemma per entry kind proves which entry a
line of each shape becomes. That includes the priority effects, for example
that a `failed:` line stays `Failed` even when its message holds a custom
error.

The error database is an immutable value passed to the lookups. The Rust code
loads it lazily from embedded JSON.

The line `Program failed: custom program error: 0x1771` looks like a
`failed:` line but is not one. `src/log_parser.rs` classifies it as a
`CustomError` with hex `1771`, as its test at `src/log_parser.rs:143-151`
expects: the `failed:` pattern needs a Base58 program id of at least 32
characters right after `Program `, followed by ` failed: `, and no such id
follows `Program ` in this line, so that pattern does not apply.
`LogParser.CustomExample` proves this classification.

## Model

| member | source | states |
|---|---|---|
| `Output.New` | src/output.rs:17-28 | A new record carries the code and `0x` plus its lower-case hex, an empty program id and no optional field. |
| `Output.WithProgram` | src/output.rs:30-33 | Sets the program id and leaves every other field as it was. |
| `Output.WithName` | src/output.rs:35-38 | Sets the name and leaves every other field as it was. |
| `Output.WithMessage` | src/output.rs:40-43 | Sets the message and leaves every other field as it was. |
| `Output.WithSource` | src/output.rs:45-49 | Sets file and line together, so a record's source location is complete or absent. |
| `Output.WithCpiDepth` | src/output.rs:51-54 | Sets the CPI depth to `Some(depth)` and leaves every other field as it was. |
| `Output.BuildKeepsInvariant` | src/output.rs:16-54 | Whatever chain of builder calls follows `new(code)`, the record keeps `code`, its matching hex text and a paired source location. |
| `Registry.FirstWithCode` | src/decoder/registry.rs:34 | `find` by code returns the first entry in list order with that code, and nothing exactly when no entry has it. |
| `Registry.EntryRecord` | src/decoder/registry.rs:35-40 | A table entry becomes a record with the entry's code, name and message, attributed to the owner, with no source or depth. |
| `Registry.LookupProgramError` | src/decoder/registry.rs:30-45 | Nothing for an unknown program id; for a known one, a hit exactly when the program lists the code, attributed to that program. |
| `Registry.LookupProgramErrorFirst` | src/decoder/registry.rs:33-41 | A hit is built from the first entry of the program's list that has the code. |
| `Registry.LookupAnchorError` | src/decoder/registry.rs:47-60 | A hit exactly when the framework table lists the code, attributed to `Anchor Framework`. |
| `Registry.LookupAnchorErrorFirst` | src/decoder/registry.rs:50-56 | A hit is built from the first framework entry that has the code. |
| `Registry.RecordsFor` | src/decoder/registry.rs:68-77 | One record per table entry, in table order, attributed to the given id. |
| `Registry.FirstNamed` | src/decoder/registry.rs:82-83 | The name search stops at the first program in iteration order that carries the name, and fails only when none does. |
| `Registry.ListProgramErrors` | src/decoder/registry.rs:62-100 | An id that is a key lists that program; otherwise a result exists exactly when some program has that name, and it lists that program's entries under its id. |
| `Registry.ListIgnoresOrderForUniqueNames` | src/decoder/registry.rs:82-97 | With unique program names the map's iteration order cannot change the result. |
| `Registry.GetProgramName` | src/decoder/registry.rs:102-105 | The stored name exactly when the id is a key. |
| `Anchor.IsAnchorCustomError` | src/decoder/anchor.rs:5-7 | A code is a program's own custom error exactly when it is at least the offset 6000. |
| `Anchor.AnchorCustomThreshold` | src/decoder/anchor.rs:42-47 | 6000 and 6001 are custom codes, 2000 and 5999 are not. |
| `Anchor.DecodeAnchorCustom` | src/decoder/anchor.rs:9-14 | A custom code gets name `CustomError[i]` and message `Custom program error at variant index i` with `i = code - 6000`, no program, source or depth. |
| `Anchor.CustomNameCarriesIndex` | src/decoder/anchor.rs:10-12 | The index inside the synthesised name reads back, through the code parser, as the code minus 6000. |
| `Anchor.ParseErrorCode` | src/decoder/anchor.rs:16-26 | The input succeeds exactly when, once trimmed, it is a token of one or more digits, hex after a `0x` prefix and decimal otherwise, with at most one leading `+`, whose value is below 2^32; the result is that value. In particular an input that trims to nothing, or to a bare `0x`, is rejected. |
| `Anchor.ParseTrimmedCode` | src/decoder/anchor.rs:19-25 | A trimmed token is read in base 16 after a `0x` prefix and in base 10 otherwise; it succeeds exactly when what remains is an optional `+` and one or more digits of that radix with a value below 2^32, and the result is that value. An empty token and a bare `0x` are rejected. |
| `Anchor.ParseHexRoundTrip` | src/decoder/anchor.rs:20-21 | `0x` plus the lower-case hex of any 32-bit code parses back to that code. |
| `Anchor.ParseDecimalRoundTrip` | src/decoder/anchor.rs:24-25 | The decimal rendering of any 32-bit code parses back to that code. |
| `Anchor.ParseIgnoresPadding` | src/decoder/anchor.rs:17 | White space around a token does not change what it parses to. |
| `Anchor.ParseRejectsDecimalOverflow` | src/decoder/anchor.rs:25 | A decimal number of 2^32 or more is rejected. |
| `Anchor.ParseRejectsHexOverflow` | src/decoder/anchor.rs:21 | A hex number of 2^32 or more is rejected. |
| `Anchor.ParseTestValues` | src/decoder/anchor.rs:32-40 | `0x1771` and `6001` both parse to 6001. |
| `Anchor.HexFieldReadsBack` | src/output.rs:21 | The hex text of every well-formed record parses back to its code. |
| `Decoder.Attribute` | src/decoder/mod.rs:26-28 | The record's program id becomes the given program when there is one and stays as it was otherwise; every other field is unchanged, so a well-formed record stays well-formed. |
| `Decoder.DecodeError` | src/decoder/mod.rs:8-42 | Every result carries the code and its hex text, a name and a message, no source or depth, and is attributed either to the framework or to the given program (empty if none). |
| `Decoder.FrameworkTierWins` | src/decoder/mod.rs:10-14 | Below 6000 a framework entry wins and the program table is not consulted, whatever program is named. |
| `Decoder.ProgramTierWins` | src/decoder/mod.rs:17-21 | Otherwise the first entry of the named program with the code wins, including codes from 6000 up. |
| `Decoder.CustomTierFallback` | src/decoder/mod.rs:24-30 | An unlisted code from 6000 up gets the generic custom-error name and message for its variant index, attributed to the program if given. |
| `Decoder.UnknownTierFallback` | src/decoder/mod.rs:33-41 | An unlisted code below 6000 is `Unknown` / `Unknown error code`, attributed to the program if given. |
| `Decoder.CustomExample` | src/decoder/mod.rs:23-30 | With an empty database 6001 decodes to `CustomError[1]` with hex `0x1771`. |
| `Text.StripPrefix` | src/decoder/anchor.rs:20 | `strip_prefix` succeeds exactly when the text starts with the prefix, and returns what follows it. |
| `Text.FindFirst` | src/main.rs:69 | `find` returns the first position at which the pattern occurs, and nothing when it occurs nowhere. |
| `Text.SpanLen` | src/main.rs:71-74 | `take_while(..).count()` is the length of the longest leading run of the class. |
| `Text.Trim` | src/decoder/anchor.rs:17 | The trimmed text neither starts nor ends with white space. |
| `Text.TrimPadded` | src/decoder/anchor.rs:17 | White space around a token without white-space ends trims back to exactly the token. |
| `Text.TrimEmptyIff` | src/main.rs:48-49 | A line trims to nothing exactly when it is all white space. |
| `Text.LeftmostMatch` | src/log_parser.rs:80 | An unanchored search reports the leftmost position where the pattern matches, and nothing only when it matches nowhere. |
| `Wrappers.MapSeq` | src/log_parser.rs:102 | `map(..).collect()` keeps length and order. |
| `Numerals.Render` | src/output.rs:21 | The rendering of a number is a non-empty run of its radix's digits with no leading zero, and every hex letter in it is lower case (`a`-`f`). |
| `Numerals.ValueOfRender` | src/output.rs:21 | Reading back the rendered digits gives the number again. |
| `Numerals.ParseUnsigned` | src/decoder/anchor.rs:21 | `from_str_radix` succeeds exactly when the text, after one optional leading `+`, is one or more digits of the radix whose positional value is below the type's limit, and then yields that value. Empty input, a lone `+` and any character outside the radix are rejected. |
| `Numerals.ParseDigits` | src/decoder/anchor.rs:25 | On a run of digits the parse is the positional value, and fails exactly when that value does not fit. |
| `Numerals.ParseRender` | src/decoder/anchor.rs:21-25 | Every value that fits survives rendering and parsing, with or without a leading `+`. |
| `Numerals.ParseOrZero` | src/log_parser.rs:55 | `.parse().unwrap_or(0)` yields the parsed value when the parse succeeds and 0 when it fails, always a value of the field's type. |
| `LogParser.MatchProgramHead` | src/log_parser.rs:18 | `^Program ([Base58]{32,})` reads a Base58 run of at least 32 characters after `Program `, up to the first non-Base58 character. |
| `LogParser.ProgramHeadOf` | src/log_parser.rs:18 | A program id followed by a space is read back exactly. |
| `LogParser.MatchInvoke` | src/log_parser.rs:18 | Whatever the invoke matcher captures forms an invoke line. |
| `LogParser.InvokeMatcherExact` | src/log_parser.rs:18 | The invoke matcher succeeds with groups (id, depth) exactly on the lines of the invoke shape. |
| `LogParser.MatchSuccess` | src/log_parser.rs:19 | Whatever the success matcher captures forms a success line. |
| `LogParser.SuccessMatcherExact` | src/log_parser.rs:19 | The success matcher succeeds exactly on the lines of the success shape. |
| `LogParser.MatchFailed` | src/log_parser.rs:20 | Whatever the failed matcher captures forms a failed line whose message has no line feed. |
| `LogParser.FailedMatcherExact` | src/log_parser.rs:20 | The failed matcher succeeds with groups (id, message) exactly on the lines of the failed shape. |
| `LogParser.MatchConsumed` | src/log_parser.rs:21-23 | Whatever the consumed matcher captures forms a consumed line. |
| `LogParser.ConsumedMatcherExact` | src/log_parser.rs:21-23 | The consumed matcher succeeds with groups (id, used, total) exactly on the lines of the consumed shape. |
| `LogParser.MatchAnchorLocation` | src/log_parser.rs:26 | The first half of the Anchor pattern reads a colon-free file and a line number. |
| `LogParser.AnchorLocationExact` | src/log_parser.rs:26 | That half reads back exactly the file and line it was given. |
| `LogParser.MatchAnchorDetails` | src/log_parser.rs:26 | The second half reads a word code name, a number and a message without a dot. |
| `LogParser.AnchorDetailsExact` | src/log_parser.rs:26 | That half reads back exactly the groups it was given. |
| `LogParser.MatchAnchorAt` | src/log_parser.rs:26 | The Anchor matcher at a position only succeeds with valid groups whose text starts there and whose message ends at a dot or at the end. |
| `LogParser.AnchorMatcherExact` | src/log_parser.rs:26 | The Anchor matcher succeeds at a position with groups `c` exactly when the pattern matches there with those groups. |
| `LogParser.MatchCustomAt` | src/log_parser.rs:29 | The custom matcher at a position only succeeds with a maximal non-empty hex run after `custom program error: 0x`. |
| `LogParser.CustomMatcherExact` | src/log_parser.rs:29 | The custom matcher succeeds with `hex` exactly when the pattern matches there with that group. |
| `LogParser.ParseLogLine` | src/log_parser.rs:51-99 | Every line yields one entry: `Other` keeps the line unchanged, `Success` and `Failed` are lines of their shapes, invoke and consumed entries carry a program id read after `Program `, and a custom error carries non-empty hex digits without `0x`. |
| `LogParser.ParseOrZeroDigits` | src/log_parser.rs:55 | A numeric group becomes its decimal value when the field's type holds it, and 0 otherwise. |
| `LogParser.ClassifyInvoke` | src/log_parser.rs:52-57 | An invoke line is an `Invoke` entry with its id and depth. |
| `LogParser.OverflowingDepthIsZero` | src/log_parser.rs:55 | A depth too large for `u8`, such as `[300]`, keeps the line an invoke, at depth 0. |
| `LogParser.ClassifySuccess` | src/log_parser.rs:59-63 | A success line is a `Success` entry. |
| `LogParser.ClassifyFailed` | src/log_parser.rs:65-70 | A failed line is a `Failed` entry even when its message is a custom or Anchor error, because that pattern is tried first. |
| `LogParser.ClassifyConsumed` | src/log_parser.rs:72-78 | A consumed line is a `Consumed` entry; a count past `u64::MAX` becomes 0. |
| `LogParser.ClassifyAnchor` | src/log_parser.rs:80-88 | A line that is not a failed line, with its leftmost Anchor match at `i`, is an `AnchorError` entry with those groups; line and error numbers past `u32::MAX` become 0. |
| `LogParser.ClassifyCustom` | src/log_parser.rs:90-94 | A line that is not a failed line, with no Anchor match and its leftmost custom match at `i`, is a `CustomError` entry with that hex. |
| `LogParser.ClassifyOther` | src/log_parser.rs:96-98 | A line is `Other` exactly when no pattern matches it anywhere it is tried. |
| `LogParser.ParseLogs` | src/log_parser.rs:101-103 | One entry per line, in order, each the classification of its line. |
| `LogParser.InvokeExample` | src/log_parser.rs:110-119 | `Program 1111…1 invoke [1]` (32 ones) is an invoke of that id at depth 1. |
| `LogParser.ClassifyLoggedAnchor` | src/log_parser.rs:80-88 | Any Anchor error logged after `Program log: ` is an `AnchorError` entry with its groups. |
| `LogParser.AnchorExample` | src/log_parser.rs:122-140 | The Anchor test line gives file `programs/myprogram/src/lib.rs`, line 42, `AmountTooLarge`, 6001 and its message. |
| `LogParser.CustomExample` | src/log_parser.rs:143-151 | `Program failed: custom program error: 0x1771` is a `CustomError` with hex `1771`. |
| `Rpc.HexCode` | src/rpc.rs:77 | `from_str_radix(.., 16).unwrap_or(0)` on a custom-error line's digits: their base-16 value when they are an optional `+` and one or more hex digits whose value fits in `u32`, and 0 otherwise. |
| `Rpc.HexCodeOfDigits` | src/rpc.rs:77 | A hex run is read positionally; one too large for `u32` becomes code 0. |
| `Rpc.Emit` | src/rpc.rs:52-92 | A record exactly for Anchor errors, custom errors and failed lines with the custom-error prefix. Each record is tagged with the current depth. Anchor fields are copied as they are and attributed to the current program. A custom error is resolved with the current program and a failed line with its own program. |
| `Rpc.FailedIgnoresCurrentProgram` | src/rpc.rs:82-90 | The record of a failed line does not depend on the program last invoked. |
| `Rpc.LastInvoke` | src/rpc.rs:53-56 | Finds the last invoke line, or reports that there is none. |
| `Rpc.StateAfterStep` | src/rpc.rs:48-56 | Threading the state through the entries agrees with "program and depth of the last invoke line, else none and 0". |
| `Rpc.Origins` | src/rpc.rs:51-93 | Lists the emitting entries, each once and in increasing order. |
| `Rpc.CollectedPerOrigin` | src/rpc.rs:51-93 | Record `k` comes from the `k`-th emitting entry, decoded in the state left by the entries before it. |
| `Rpc.CollectedWellFormed` | src/rpc.rs:64-88 | Every record keeps its code's hex text and a paired source location, and carries a CPI depth. |
| `Rpc.CollectedEmptyIff` | src/rpc.rs:95-99 | Nothing is found exactly when no entry emits. |
| `Rpc.CollectedPrefix` | src/rpc.rs:51-93 | Later lines only append records: what a prefix of the log yields stays a prefix of the result. |
| `Rpc.ScanEntries` | src/rpc.rs:47-99 | The loop fails with `NoErrorsFound` exactly when no entry emits; otherwise it returns the records as characterised above, every one carrying a depth. |
| `Rpc.ScanLogs` | src/rpc.rs:45-99 | The scan of raw log lines fails exactly when no line's classification emits, and otherwise returns the records of the classified lines. |
| `Rpc.StaleDepthAfterReturn` | src/rpc.rs:53-56 | After a nested program returns, the state still names it at its depth: the depth is the last invoke's, not a call stack's. |
| `StdinDecode.ExtractHexError` | src/main.rs:67-80 | Nothing without a `0x`; a result is a non-empty hex run that starts right after the first `0x` and is maximal there. |
| `StdinDecode.FirstMarkerAfter` | src/main.rs:69 | After a lead without `0x`, the first `0x` is the one that follows the lead. |
| `StdinDecode.ExtractHexOf` | src/main.rs:69-77 | A hex run after the first `0x`, not continued by the rest, is exactly what is extracted. |
| `StdinDecode.OnlyFirstMarkerCounts` | src/main.rs:69-79 | When no hex digit follows the first `0x`, nothing is extracted, even if a later `0x` would qualify. |
| `StdinDecode.DecodeStdinLine` | src/main.rs:47-62 | A blank line prints nothing. With a hex literal, a record is printed exactly when the literal fits in `u32`, and there is no decimal fallback. Without one, a record is printed exactly when the trimmed line parses as a code. Every record is `decode_error` of its code. |
| `StdinDecode.HexLineDecodes` | src/main.rs:54-58 | After a lead that contains no `0x`, a line with `0x` plus the hex of a code, not followed by another hex digit, decodes that code. |
| `StdinDecode.OverflowingHexIsSkipped` | src/main.rs:54-58 | A hex literal too large for `u32` makes the line print nothing. |
| `StdinDecode.DecimalLineDecodes` | src/main.rs:59-62 | A decimal code with white space around it decodes that code. |
| `StdinDecode.DecodeStdin` | src/main.rs:46-63 | At most one record per line, each `decode_error` of its code with the given program; a single line yields exactly what `DecodeStdinLine` decides for it (its record, or nothing). |
| `StdinDecode.DecodeStdinAppend` | src/main.rs:46-63 | Lines are decoded independently: the output for two batches of lines is the concatenation of their outputs. |

## Left out

- Fetching a transaction (`src/rpc.rs:9-44`): the RPC URL, signature parsing and the network call are I/O. The scan takes the log lines as input.
- IDL fetching and parsing (`src/idl/`) is not part of this model. It needs the RPC client, address derivation, zlib and JSON deserialisation.
- Loading the error database from embedded JSON (`src/decoder/registry.rs:25-28`): the database is a parameter.
- Printing, colours and tables (`src/output.rs:57-113`), the command-line definitions (`src/cli.rs`), and the `main`/`handle_*` dispatch in `src/main.rs` are left out. The dispatch only composes the modelled functions with I/O.
- Reading standard input and stopping on a read error (`src/main.rs:45-47`) are not modelled. The stdin mode is modelled over a given sequence of lines.
- `parse_program_id` (`src/decoder/mod.rs:44-46`) is Base58 public-key parsing from an external crate.
- The map's iteration order in `list_program_errors` is unspecified in the Rust code. `Registry.ListProgramErrors` takes it as a parameter listing the keys, and `Registry.ListIgnoresOrderForUniqueNames` shows it cannot matter when names are unique.
- Rust's `\d` and `\w` match Unicode digits and word characters. The model takes them as ASCII `0-9` and `[0-9A-Za-z_]`. A log line with non-ASCII digits in a number group is therefore classified differently.
- Rust slices strings by byte offset. The model indexes by character. This only differs for non-ASCII text, and every offset the Rust code computes follows ASCII text (`0x`, the literal parts of the patterns).
- `Anchor.DecodeAnchorCustom` requires a code of at least 6000. In the Rust code the `u32` subtraction would fail below that, and its only caller checks the threshold first.
