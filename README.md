# Knitout writer, modelled in Dafny

This project models `Knitout::Writer`, the C++ front end that builds
knitout programs for knitting machines. A writer is created with the list of
carrier names the machine offers. Its calls then add header lines and
operation lines. The writer checks each call first: that carriers are brought
in before they are used and are not brought in twice, that beds, needles and
directions are well formed, and that header names and values are admissible.
It also tracks which needles hold loops. A call whose checks fail throws,
and leaves the writer as it was before the failing check.
The file it writes starts with the magic line `;!knitout-2`, then the
`Carriers` header, then the accepted headers, then the operations, each in
the order they were added.

The model is split into modules along the structure of `knitout.cpp`:

- `Errors` — every exception the writer throws, as an `Error` value. A call
  returns `Done` or `Failed(e)` for the first check that failed.
- `Text` — the string helpers the writer uses: `trim_copy`, `iequals`,
  `isNumber` (on `strtol`), `toString`, `join`, `split` and `splitAny`.
  `split` and `splitAny` are loops, so they are methods proved against the
  functions `Pieces` and `Tokens`. `Tokens` is proved to invert `join`.
  `Pieces` and `join` are proved to invert each other: `join` after
  `split` restores the text, and `split` after `join` restores the pieces
  when none holds the delimiter.
- `BedNeedle` — the validators for direction, bed and needle, `makeKey`, and
  `parseBedNeedle`. `parseBedNeedle` is a method with its scan loop, proved
  against `Parse`. The round trip `Parse(makeKey(bed, n)) == (bed, n)` is
  proved.
- `Carriers` — the carrier state. It maps each carrier that is in to
  whether it is on the yarn-inserting hook. `internalIn`,
  `internalReleaseHook` and `internalOut` are one `Step`, and a list call is
  a fold of `Step` over the list. Lemmas give the exact condition under
  which a list call succeeds and the state it leaves.
- `Opcodes` — knit, tuck, split, miss, drop, amiss and xfer as functions of
  the set of loaded needles. Each gives its checks in the writer's order, the
  new needle set and the line it writes. Lemmas prove that every line whose
  carrier names are single words, with no space or comma, splits back into
  its opcode, direction, needle tokens and carriers. A name holding a space
  does not split back, and a lemma shows one such line.
- `Headers` — the checks of `addHeader`, the header line format and its
  parser, and the log of accepted headers. The log keeps the rule that the
  machine is set at most once.
- `Comments` — `comment` and `pause`: one `;` line per line of the text,
  with the line's leading semicolons removed.
- `Knitout` — the class `Writer`. Its fields are the carriers, the loaded
  needles, the operations, the headers and the machine. Each overload of the
  C++ API is a method, with a `modifies` clause and an `ensures` clause that
  ties the new state to the functions above.
- `Scenarios` — the carrier calls of the bundled sample program, stated as
  lemmas and replayed against a `Writer`.

Overloads get distinct names:

| C++ overload | Dafny method |
|---|---|
| single carrier string | `Knit` |
| vector of carriers | `KnitList` |
| `"f10"` bed+needle token | `KnitAt` |
| token and vector | `KnitAtList` |

A single carrier string that contains a space or a comma is split with
`splitAny`, exactly as the C++ overloads do.

The model keeps these behaviours of the code, which a reader might not
expect:

- A carrier list call is not atomic. The names before the failing one stay
  in, or out (`Carriers.FailureKeepsEarlierNames`).
- `speedNumber` writes `x-speed-number ` without its value.
- `rollerAdvance` writes an `x-speed-number` line before its
  `x-roller-advance` line.
- The list form of `outhook` writes `out`, not `outhook`.
- `releasehook` does not trim the carrier name, while `in` and `out` do.
- `isNumber` accepts the empty string, so an empty `Gauge` header is
  accepted (`Headers.GaugeAcceptsEmpty`).
- A non-numeric `Gauge` fails with its own error (`GaugeNotNumber`).
- `Position` values are compared case-sensitively
  (`Headers.PositionValueKeepsCase`).

## Model

| member | source | states |
|---|---|---|
| Text.TrimLeft | knitout.cpp:144-149 | the result is a suffix of the input; everything removed is whitespace; the result does not start with whitespace |
| Text.TrimRight | knitout.cpp:152-157 | the result is a prefix of the input; everything removed is whitespace; the result does not end with whitespace |
| Text.Trim | knitout.cpp:160-163 | the result is what is left of the input after whitespace characters are dropped one at a time from either end, and it neither starts nor ends with whitespace |
| Text.TrimKeeps | knitout.cpp:178-181 | a string without surrounding whitespace is left unchanged by trimming |
| Text.TrimIdempotent | knitout.cpp:178-181 | trimming twice is trimming once |
| Text.TrimEmpty | knitout.cpp:178-181 | trimming gives the empty string exactly when the input is all whitespace |
| Text.IEquals | knitout.cpp:99-106 | `iequals`: the same length, and equal characters after `tolower` at every position |
| Text.IntToString | knitout.cpp:121-126 | `toString` of an `int`: a `-` then the digits of its magnitude for a negative number, its digits otherwise |
| Text.IsNumber | knitout.cpp:88-93 | `isNumber`: `strtol` reads the whole text, that is after leading whitespace and one optional sign a non-empty run of digits; the empty string also passes |
| Text.Join | knitout.cpp:27-42 | `join`: the parts in order with the delimiter between each two, `""` for no part |
| Text.NatToString | knitout.cpp:121-126 | `toString` of a number is a non-empty string of digits with no leading zero |
| Text.DigitsValueOfNatToString | knitout.cpp:121-126 | reading back the digits `toString` writes gives the number |
| Text.DigitLedNumber | knitout.cpp:88-93 | for text that starts with a digit, `isNumber` holds exactly when all of it is digits |
| Text.JoinAppend | knitout.cpp:27-42 | joining two non-empty lists is joining each and putting the delimiter between them |
| Text.FindFirstOf | knitout.cpp:73 | `find_first_of`: the position of the first delimiter at or after `from`, or the end when there is none |
| Text.TokensFrom | knitout.cpp:68-83 | every word `splitAny` yields is non-empty and holds no delimiter |
| Text.Tokens | knitout.cpp:68-83 | every word of `splitAny(s)` is non-empty and holds no delimiter |
| Text.SplitAny | knitout.cpp:68-83 | the loop collects exactly the words of `Tokens(s)`, each non-empty and free of delimiters |
| Text.TokensFromStep | knitout.cpp:73-78 | one turn of the loop keeps the invariant: words collected so far plus the words still ahead stay the same |
| Text.TokensFromJoin | knitout.cpp:68-83 | splitting, from the end of any prefix, the words joined by any non-empty run of delimiters and followed by any run of delimiters gives the non-empty delimiter-free words back |
| Text.SplitAnyOfJoin | knitout.cpp:68-83 | round trip: `splitAny(join(cs, sep) + tail, " ,") == cs` for non-empty words without spaces or commas, any non-empty separator of spaces and commas (`" "`, `", "`, `","`) and any trailing spaces and commas |
| Text.TokensOfDelimiters | knitout.cpp:68-83 | a string made only of delimiters, the empty one included, yields no word |
| Text.PiecesFrom | knitout.cpp:48-63 | `split` from a position yields at least one piece, and no piece holds the delimiter |
| Text.Pieces | knitout.cpp:48-63 | `split(s, d)` yields at least one piece, and no piece holds the delimiter |
| Text.Split | knitout.cpp:48-63 | the loop yields exactly `Pieces(s, d)` |
| Text.PiecesFromCount | knitout.cpp:48-63 | there is one piece more than there are delimiters after the start |
| Text.JoinPiecesFrom | knitout.cpp:48-63 | joining the pieces with the delimiter rebuilds the text from the start position |
| Text.PiecesSpec | knitout.cpp:48-63 | `split` yields one piece more than the text has delimiters, and `join` inverts it |
| Text.PiecesFromJoin | knitout.cpp:48-63 | from a position where the text is pieces joined with the delimiter, none holding it, `split` collects exactly those pieces |
| Text.PiecesOfJoin | knitout.cpp:48-63 | `split` inverts `join`: splitting a non-empty list of pieces joined with the delimiter gives them back when none holds it |
| BedNeedle.ValidBed | knitout.cpp:309-322 | `validateBed` passes: `f` or `b`, optionally `s`, then optionally `-` or `+` |
| BedNeedle.Token | knitout.cpp:666 | the bed+needle text of an operation line: the bed, then the needle's `toString` |
| BedNeedle.MakeKey | knitout.cpp:184-187 | `makeKey`: the trimmed bed, then the needle's `toString` |
| BedNeedle.Parse | knitout.cpp:330-350 | `parseBedNeedle`: fails with no digit; the bed is the text before the first digit and the needle the text from it, which must pass `isNumber` and is read into an `int` |
| BedNeedle.ValidBedExactly | knitout.cpp:309-322 | `validateBed` accepts exactly the twelve bed spellings f, b, fs, bs and their `-`/`+` forms |
| BedNeedle.ValidBedChars | knitout.cpp:309-322 | a valid bed holds no digit, no whitespace and no comma |
| BedNeedle.KeyIsToken | knitout.cpp:184-187 | for a valid bed, `makeKey` is the token written on operation lines |
| BedNeedle.ToInt32 | knitout.cpp:348-349 | assigning the `strtol` result to an `int` keeps every value that fits in 31 bits |
| BedNeedle.FirstDigit | knitout.cpp:332-338 | the position of the first digit at or after `from`, or the end when there is none |
| BedNeedle.ParseBedNeedle | knitout.cpp:330-350 | the scan loop returns `Parse(token)`; it fails exactly when the token has no digit or the text from the first digit is not all digits |
| BedNeedle.ParseMakeKey | knitout.cpp:184-187 | round trip: parsing `makeKey(bed, n)` gives back `bed` and `n` for a valid bed and `n >= 0` |
| BedNeedle.MakeKeyInjective | knitout.cpp:184-187 | distinct valid (bed, needle) pairs get distinct keys |
| BedNeedle.ParseToken | knitout.cpp:330-350 | parsing the token of a valid bed and needle gives them back |
| BedNeedle.TokenInjective | knitout.cpp:330-350 | distinct valid (bed, needle) pairs get distinct tokens |
| BedNeedle.ParseRejectsFraction | samples/sample.cpp:66-73 | the token `fs10.5` is refused because its needle is not an integer |
| Carriers.Step | knitout.cpp:353-388 | `internalIn`, `internalReleaseHook` and `internalOut`: the checks each makes in order, with its error, and the new carrier map on success |
| Carriers.ApplyAll | knitout.cpp:431-432 | the loop over a list: each name in turn, stopping at the first failure and keeping the effect of the names before it |
| Carriers.ListCall | knitout.cpp:426-436 | a list call: an empty list fails with `EmptyCarrierSet` before anything changes, otherwise the loop runs |
| Carriers.StepSpec | knitout.cpp:353-388 | `in` succeeds exactly when the trimmed name is non-empty and not in; `releasehook` exactly when the untrimmed name is in and on the hook; `out` exactly when the trimmed name is in; on success `in` gives `m[Trim(c) := hook]`, `releasehook` gives `m[c := false]` and `out` gives `m - {Trim(c)}`, and no other name changes |
| Carriers.ApplyAllAppend | knitout.cpp:431-432 | running a list of names is running its first part, then, if that did not fail, the rest from the state it left |
| Carriers.FailureKeepsEarlierNames | knitout.cpp:431-432 | when name k is the first to fail, the names before it stay applied and the call reports name k's error |
| Carriers.Trimmed | knitout.cpp:355 | each name trimmed, in order |
| Carriers.DistinctCons | knitout.cpp:431-432 | a list is duplicate-free exactly when its tail is and its head is not in its tail |
| Carriers.AllNewCons | knitout.cpp:353-362 | a list can all come in exactly when its head can and the rest can after the head is in |
| Carriers.AllInCons | knitout.cpp:379-388 | a list can all go out exactly when its head can and the rest can after the head is out |
| Carriers.AllOnHookCons | knitout.cpp:364-377 | a list can all be released exactly when its head can and the rest can after the head is released |
| Carriers.BringInAllOk | knitout.cpp:426-436 | `in` on a list succeeds exactly when the trimmed names are non-empty, not yet in and distinct |
| Carriers.BringInAllEffect | knitout.cpp:426-436 | after a successful `in`, the carriers are the old ones plus the trimmed names, the new ones on the hook exactly for `inhook` |
| Carriers.TakeOutHead | knitout.cpp:379-388 | `out` on a list removes its first trimmed name and continues, or fails when that name is not in |
| Carriers.TakeOutAllOk | knitout.cpp:499-508 | `out` on a list succeeds exactly when the trimmed names are in and distinct |
| Carriers.TakeOutAllEffect | knitout.cpp:499-508 | after a successful `out`, the carriers are the old ones minus the trimmed names, the others keeping their hook flag |
| Carriers.ReleaseAllOk | knitout.cpp:475-484 | `releasehook` on a list succeeds exactly when the names are all in on the hook and distinct |
| Carriers.ReleaseAllEffect | knitout.cpp:475-484 | after a successful `releasehook`, the same carriers are in, the named ones off the hook and the rest unchanged |
| Opcodes.ValidateCarriers | knitout.cpp:294-301 | checking every name of a carrier list fails only when some name is empty after trimming |
| Opcodes.CarrierArg | knitout.cpp:629-644 | a carrier string with a delimiter becomes non-empty names free of delimiters; without one it is no carrier if empty and otherwise the one name, and joins back to the string |
| Opcodes.OnlyDelimitersIsNoCarrier | knitout.cpp:629-631 | every non-empty carrier string made only of spaces and commas is split, and stands for no carrier at all |
| Opcodes.Transfer | knitout.cpp:936-941 | moving loops empties the source needle, loads the target when the source or the target held loops, and leaves every other needle as it was |
| Opcodes.KnitOp | knitout.cpp:627-667 | knit succeeds exactly when direction, bed, needle and carriers are valid; it reports a bad direction first, then a bad bed; with carriers it loads the needle and without carriers it empties it |
| Opcodes.TuckOp | knitout.cpp:689-724 | tuck succeeds exactly when direction, bed, needle and carriers are valid, and then loads the needle |
| Opcodes.SplitOp | knitout.cpp:746-805 | split succeeds exactly when its arguments are valid and the beds differ, and valid arguments on one bed fail with `SameBedSplit`; on success the target holds loops when either needle did, the source holds loops exactly when carriers are given, and no other needle changes |
| Opcodes.MissOp | knitout.cpp:833-866 | miss succeeds exactly when its arguments are valid and it has carriers; without carriers it fails with `NoCarriersForMiss`; it never changes the needles |
| Opcodes.DropOp | knitout.cpp:889-897 | drop succeeds exactly for a valid bed and needle, and then empties that needle |
| Opcodes.AmissOp | knitout.cpp:910-916 | amiss succeeds exactly for a valid bed and needle, and never changes the needles |
| Opcodes.XferOp | knitout.cpp:929-944 | xfer succeeds exactly for valid beds and needles, and moves the loops of the source needle to the target |
| Opcodes.KnitUsesMakeKey | knitout.cpp:639-646 | knit's effect stated with the `makeKey` key the writer stores |
| Opcodes.TuckUsesMakeKey | knitout.cpp:689-707 | tuck's effect stated with the `makeKey` key |
| Opcodes.DropUsesMakeKey | knitout.cpp:889-897 | drop's effect stated with the `makeKey` key |
| Opcodes.XferOntoItselfEmpties | knitout.cpp:936-941 | an xfer from a needle to itself leaves that needle empty, because the erase follows the insert |
| Opcodes.NeedleTokenFormsAgree | knitout.cpp:669-677 | the bed+needle token forms of knit, tuck and miss behave as the forms with a separate bed and needle |
| Opcodes.PlaceTokenFormsAgree | knitout.cpp:899-926 | the token forms of drop and amiss behave as the forms with a separate bed and needle |
| Opcodes.PairTokenFormsAgree | knitout.cpp:807-818 | the token forms of split and xfer behave as the forms with separate beds and needles |
| Opcodes.TokenCheckedFirst | knitout.cpp:669-677 | a token that does not parse fails with the parse error before any other check |
| Opcodes.LineWords | knitout.cpp:648 | a line of space-joined words splits back into those words |
| Opcodes.TokenIsWord | knitout.cpp:648 | the bed+needle token is one word without delimiters |
| Opcodes.NeedleLineReadsBack | knitout.cpp:648 | a knit, tuck or miss line whose carrier names are single words without spaces or commas splits back into opcode, direction, needle token and carriers |
| Opcodes.SplitLineReadsBack | knitout.cpp:775 | a split line whose carrier names are single words without spaces or commas splits back into `split`, direction, both needle tokens and carriers |
| Opcodes.SpacedCarrierReadsApart | knitout.cpp:651-667 | the list form of knit accepts the carrier name `"A B"`, and its line `knit + f10 A B` splits into five words, not four |
| Opcodes.PlaceLineReadsBack | knitout.cpp:889-897 | a drop or amiss line splits back into opcode and needle token |
| Opcodes.XferLineReadsBack | knitout.cpp:943 | an xfer line splits back into `xfer` and both needle tokens |
| Headers.IsSupportedPosition | knitout.cpp:249-253 | the loop finds the value exactly when it is one of Left, Center, Right, Keep |
| Headers.HeaderCheck | knitout.cpp:219-280 | a header is accepted exactly when it is admissible; a name with `": "` fails first, then a value with a line feed |
| Headers.MachineSetOnce | knitout.cpp:235-241 | an accepted header never changes a machine already set, and a `Machine` header is accepted only while none is set |
| Headers.GaugeAcceptsEmpty | knitout.cpp:242-246 | a `Gauge` header with an empty value is accepted, because `isNumber("")` holds |
| Headers.PositionHeader | knitout.cpp:247-261 | a `Position` header is accepted exactly for the four supported values, and any other single-line value fails with `InvalidPosition` |
| Headers.PositionValueKeepsCase | knitout.cpp:251 | the header name is compared ignoring case, but `left` is not a supported position |
| Headers.NoLineFeed | knitout.cpp:225 | a string with no line-feed character does not contain `"\n"` |
| Headers.ContainsOne | knitout.cpp:225 | finding a one-character string is finding that character |
| Headers.ContainsSeparator | knitout.cpp:221 | a name contains `": "` exactly when a colon is followed by a space somewhere |
| Headers.NoSeparatorWithoutColon | knitout.cpp:221 | a name without a colon passes the separator check |
| Headers.HeaderLine | knitout.cpp:279 | the header line: `;;`, the name, `": "`, the value |
| Headers.CarriersHeader | knitout.cpp:215 | the constructor's header: `Carriers` with the names joined by single spaces |
| Headers.FindSeparator | knitout.cpp:279 | the first `": "` at or after `from`, or the end when there is none |
| Headers.ParseHeaderLine | knitout.cpp:279 | a line read back as a header is exactly the line that header writes, with a name free of `": "` |
| Headers.HeaderLineRoundTrip | knitout.cpp:279 | round trip: every header whose name passes the check reads back from its line |
| Headers.HeaderLines | knitout.cpp:279 | the header lines are the accepted headers' lines, in order |
| Headers.AcceptOne | knitout.cpp:219-280 | adding an accepted header keeps the log accepted, moves the machine as the header says and adds one line |
| Headers.MachineStays | knitout.cpp:237-238 | once the log sets a machine, every longer prefix of the log keeps it |
| Headers.MachineNamedOnce | knitout.cpp:235-241 | if two accepted headers are both named `Machine`, the earlier one was empty |
| Headers.AcceptedLinesReadBack | knitout.cpp:279 | every line of an accepted log reads back as its header |
| Headers.CarriersHeaderReadsBack | knitout.cpp:215 | the constructor's header reads back as `Carriers` with the space-joined names |
| Comments.LeadingCount | knitout.cpp:966-973 | the length of the leading run of `;`: all of it is `;` and what follows is not |
| Comments.LeadingSemicolons | knitout.cpp:966-973 | the counting loop stops at the end of the leading run of `;` |
| Comments.StripSemicolons | knitout.cpp:977 | the line is its leading semicolons followed by the result, which does not start with `;` |
| Comments.CommentLine | knitout.cpp:977 | the line for one piece: `;`, then the piece without its leading semicolons |
| Comments.CommentLines | knitout.cpp:960-979 | the lines `comment` appends: one per piece of `split(str, "\n")` |
| Comments.CommentLinesOf | knitout.cpp:964-978 | one comment line per piece of text, in order |
| Comments.CommentLinesShape | knitout.cpp:960-979 | a comment writes one line more than its text has line feeds, and each line is a single line starting with exactly one `;` |
| Comments.CommentLineShape | knitout.cpp:977 | the line for one piece starts with exactly one `;` and has no line feed |
| Comments.Bodies | knitout.cpp:977 | the text after the `;` of every comment line |
| Comments.CommentRoundTrip | knitout.cpp:960-979 | round trip: when no line of the text starts with `;`, the comment lines without their `;`, joined by line feeds, give the text back |
| Comments.CommentLineStable | knitout.cpp:977 | commenting a comment line's own text again writes the same line |
| Knitout.CarrierSet | knitout.cpp:413-418 | the names a single carrier string stands for: its `splitAny` words when it holds a space or a comma, otherwise the string itself |
| Knitout.DelimitersOnlyIsEmptySet | knitout.cpp:413-436 | every non-empty carrier string made only of spaces and commas fails as an empty carrier set and changes nothing |
| Knitout.ApplyFrom | knitout.cpp:431-432 | the loop over carriers from position i: it stops at a failing name or goes on from the new state |
| Knitout.OneCarrierCall | knitout.cpp:413-424 | a call with one name is a single step: it fails with that step's error, leaving the carriers as they were, or applies it |
| Knitout.TokenIsKey | knitout.cpp:184-187 | the token of a valid bed and needle is a valid needle key |
| Knitout.KeyOf | knitout.cpp:184-187 | `makeKey` of a valid bed is the token of that bed and needle |
| Knitout.NeedleLineOfString | knitout.cpp:648 | the line built from a single carrier string is the line of the carrier list it stands for |
| Knitout.SplitLineOfString | knitout.cpp:775 | the split line built from a single carrier string is the line of the list it stands for |
| Knitout.HeaderAccepted | knitout.cpp:279 | pushing an accepted header's line keeps the header lines equal to the `Carriers` header plus the lines of the accepted log |
| Knitout.StepKeepsNames | knitout.cpp:353-388 | every carrier in stays under a trimmed, non-empty name |
| Knitout.Writer.constructor | knitout.cpp:201-216 | a new writer has no carriers in, no loaded needles, no operations and no machine, and its only header is `Carriers` |
| Knitout.Writer.Output | knitout.cpp:390-398 | `internalWrite`: the magic line `;!knitout-2`, the header lines, then the operation lines |
| Knitout.Writer.OutputShape | knitout.cpp:390-398 | the file is the magic line, the `Carriers` header, one readable line per accepted header, then the operations |
| Knitout.Writer.CheckHeader | knitout.cpp:219-261 | the checks of `addHeader` give the status of `HeaderCheck` against the current machine |
| Knitout.Writer.AddHeader | knitout.cpp:219-280 | an accepted header appends its line and may set the machine; a refused one changes nothing |
| Knitout.Writer.RunCarriers | knitout.cpp:431-432 | the carriers after the loop and the status are those of `ApplyAll` |
| Knitout.Writer.CarrierList | knitout.cpp:426-436 | a list call gives the carriers and the status of `ListCall`, and writes its line only on success |
| Knitout.Writer.CarrierSingle | knitout.cpp:413-424 | a single-string call acts on the names the string stands for, and its line uses the list opcode when the string was split |
| Knitout.Writer.In | knitout.cpp:413-424 | `in` brings the named carriers in off the hook and writes `in` only on success |
| Knitout.Writer.InList | knitout.cpp:426-436 | `in` on a list brings them in off the hook and writes one `in` line only on success |
| Knitout.Writer.InHook | knitout.cpp:438-449 | `inhook` brings the named carriers in on the hook and writes an `in` line only on success |
| Knitout.Writer.InHookList | knitout.cpp:451-460 | `inhook` on a list brings them in on the hook and writes one `in` line only on success |
| Knitout.Writer.ReleaseHook | knitout.cpp:462-473 | `releasehook` takes the named carriers off the hook and writes its line only on success |
| Knitout.Writer.ReleaseHookList | knitout.cpp:475-484 | `releasehook` on a list takes them off the hook and writes one line only on success |
| Knitout.Writer.Out | knitout.cpp:486-497 | `out` takes the named carriers out and writes its line only on success |
| Knitout.Writer.OutList | knitout.cpp:499-508 | `out` on a list takes them out and writes one line only on success |
| Knitout.Writer.OutHook | knitout.cpp:510-521 | `outhook` takes the named carriers out and writes `outhook` for one name, `out` when the string was split |
| Knitout.Writer.OutHookList | knitout.cpp:523-532 | `outhook` on a list takes them out and writes an `out` line only on success |
| Knitout.Writer.Knit | knitout.cpp:627-649 | knit with a carrier string changes the needles and the operations as `KnitOp` on the carriers the string stands for, and changes nothing on failure |
| Knitout.Writer.KnitList | knitout.cpp:651-667 | knit with a carrier list acts as `KnitOp` |
| Knitout.Writer.KnitAt | knitout.cpp:669-677 | knit on a bed+needle token parses it first and then acts as `KnitOp` |
| Knitout.Writer.KnitAtList | knitout.cpp:679-687 | the token and list form of knit |
| Knitout.Writer.Tuck | knitout.cpp:689-707 | tuck with a carrier string acts as `TuckOp` |
| Knitout.Writer.TuckList | knitout.cpp:709-724 | tuck with a carrier list acts as `TuckOp` |
| Knitout.Writer.TuckAt | knitout.cpp:726-734 | tuck on a token parses it first and then acts as `TuckOp` |
| Knitout.Writer.TuckAtList | knitout.cpp:736-744 | the token and list form of tuck |
| Knitout.Writer.Split | knitout.cpp:746-776 | split with a carrier string acts as `SplitOp` |
| Knitout.Writer.SplitList | knitout.cpp:778-805 | split with a carrier list acts as `SplitOp` |
| Knitout.Writer.SplitAt | knitout.cpp:807-818 | split on two tokens parses both and then acts as `SplitOp` |
| Knitout.Writer.SplitAtList | knitout.cpp:820-831 | the token and list form of split |
| Knitout.Writer.Miss | knitout.cpp:833-851 | miss with a carrier string acts as `MissOp`; the needles never change |
| Knitout.Writer.MissList | knitout.cpp:853-866 | miss with a carrier list acts as `MissOp` |
| Knitout.Writer.MissAt | knitout.cpp:868-876 | miss on a token parses it first and then acts as `MissOp` |
| Knitout.Writer.MissAtList | knitout.cpp:878-886 | the token and list form of miss |
| Knitout.Writer.Drop | knitout.cpp:889-897 | drop acts as `DropOp`: on success the needle is empty and a line is written |
| Knitout.Writer.DropAt | knitout.cpp:899-907 | drop on a token parses it first |
| Knitout.Writer.Amiss | knitout.cpp:910-916 | amiss acts as `AmissOp`: the needles never change |
| Knitout.Writer.AmissAt | knitout.cpp:918-926 | amiss on a token parses it first |
| Knitout.Writer.Xfer | knitout.cpp:929-944 | xfer acts as `XferOp`: the loops of the source needle move to the target |
| Knitout.Writer.XferAt | knitout.cpp:946-957 | xfer on two tokens parses both first |
| Knitout.Writer.MoveLoops | knitout.cpp:936-941 | the find, insert and erase on the needle set give `Transfer` |
| Knitout.Writer.Comment | knitout.cpp:960-979 | `comment` appends exactly the comment lines of its text |
| Knitout.Writer.Pause | knitout.cpp:981-986 | `pause` appends the comment lines of its text, then `pause` |
| Knitout.Writer.AddRawOperation | knitout.cpp:406-410 | the line is appended as given |
| Knitout.Writer.Stitch | knitout.cpp:534-537 | appends one `stitch` line with both values |
| Knitout.Writer.StitchNumber | knitout.cpp:540-546 | fails exactly for a negative number, and writing nothing then; otherwise appends its `x-stitch-number` line |
| Knitout.Writer.FabricPresser | knitout.cpp:548-559 | appends an `x-presser-mode` line exactly for `auto`, `on` and `off`; any other mode writes nothing |
| Knitout.Writer.SpeedNumber | knitout.cpp:568-575 | for a value of zero or more appends `x-speed-number ` without the value; a negative value writes nothing |
| Knitout.Writer.RollerAdvance | knitout.cpp:577-585 | appends an `x-speed-number` line and then an `x-roller-advance` line, both with the value |
| Knitout.Writer.AddRollerAdvance | knitout.cpp:587-592 | appends one `x-add-roller-advance` line |
| Knitout.Writer.CarrierSpacing | knitout.cpp:594-601 | appends its line exactly for a positive value, and writes nothing otherwise |
| Knitout.Writer.CarrierStoppingDistance | knitout.cpp:603-610 | appends its line exactly for a positive value, and writes nothing otherwise |
| Scenarios.SampleIn | samples/sample.cpp:25 | `in` of three distinct names from no carriers brings all three in, off the hook |
| Scenarios.SampleInHookAgain | samples/sample.cpp:26-33 | `inhook` on a carrier that is already in fails with `CarrierAlreadyIn` and changes nothing |
| Scenarios.SampleReleaseOffHook | samples/sample.cpp:34-41 | `releasehook` on a carrier that is in but off the hook fails with `CarrierNotInHook` and changes nothing |
| Scenarios.SampleOut | samples/sample.cpp:119-127 | `out` on the three names empties the carriers; a second call on them fails with `CarrierNotIn` and changes nothing |
| Scenarios.CommaSeparatedNames | samples/sample.cpp:119 | a carrier string of three names joined by `", "`, as in `"A, B, C"`, is split into exactly those three names |
| Scenarios.HookOnce | knitout.cpp:364-377 | a carrier brought in on the hook is released once; a second release fails and changes nothing |

## Left out

- `rack`: the racking is a `float`. The writer checks that it is finite,
  rounds it to a quarter step and writes it. Floating point is not modelled,
  and neither is the field `_currentRacking`.
- Warnings printed to `std::cerr` change no state and are not modelled:
  unknown carrier, a carrier name with a space or comma, an unsupported
  machine extension (`machineSupport`), a `Yarn-` header, an unrecognised
  header name, a comment that starts with `;`, the presser-mode and
  speed-number warnings, and `addRawOperation`'s warning.
- `write` and the output stream of `internalWrite` are left out: file and
  console I/O. `Writer.Output` gives the lines that would be written.
- `Opcodes.NeedleLineReadsBack` and `Opcodes.SplitLineReadsBack`: the read-back
  is stated only for carrier names that are single words. The list forms
  accept a name with a space or a comma, or with whitespace around it, and
  only warn about it in the constructor (knitout.cpp:205-211). Such a line
  splits into other words, as `Opcodes.SpacedCarrierReadsApart` shows.
- `toUpper` and `isFiniteNumber` serve only the two left-out parts above.
- `split` is modelled with a one-character delimiter. Its only caller,
  `comment`, splits at `"\n"`.
- `isspace`, `isdigit` and `tolower` follow the C locale on ASCII.
  Embedded NUL characters, at which `strtol` would stop, are not modelled.
- `BedNeedle.ToInt32`: `strtol` saturates at the largest 64-bit `long`, and
  the `int` keeps its low 32 bits, as two's complement. Needle tokens come
  from digit strings only, so no negative input reaches it.
- `Stitch`, `StitchNumber`, `SpeedNumber` and the other extension calls take
  an `int32`. The sample's calls `stitch(10.0, 20)` and `stitch(10.33, 20)`
  convert a `double` to `int` before the call; that conversion is not
  modelled.
- `Knitout.KeyOf`: states the key only for a valid bed. The needle
  operations only touch the needle set after the bed has been checked.
- `Knitout.Writer.Valid`: the class invariant is ghost. It says that the
  header lines are exactly the `Carriers` header plus the accepted headers,
  that the machine is the one the log sets, that carrier names are trimmed
  and non-empty, and that every loaded needle is a valid token.
- Exceptions are modelled as a returned `Status`, so a failing call returns
  instead of unwinding. This matters only for the non-atomic carrier lists,
  and those are modelled as they behave.
- `Scenarios.CarrierSession`, `OutSession`, `HookSession`, `KnitSession` and
  `DropSession` replay the sample's calls against a `Writer`. They are
  client methods with assertions and no contract of their own. The second
  release of a hooked carrier is stated only by `Scenarios.HookOnce`.
