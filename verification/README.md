# Proofs about the port's contract scripts

The scripts under `scripts/` decide whether the Rust port of the vault behaves
like the Go program it replaces. They hold a number of small algorithms on which
every verdict rests: readers, splitters, matchers, selectors and comparers. This
project models those algorithms in Dafny and proves what they are relied on for.
`dafny verify dfyconfig.toml` checks all of it.

- **PTY driver** (`PtyMarkers`, `PtyDriver`): matches prompts in a growing
  transcript, answers them and delivers signals. The result does not depend on
  how the output is cut into reads, and greedy matching is optimal. The lists of
  prompts and actions are arbitrary.
- **Block YAML** (`YamlScalars`, `BlockYaml`, `YamlLayouts`, `YamlDocuments`,
  `YamlValues`, `YamlTaken`, `YamlExact`, `YamlReader`, `YamlCompare`): the
  recursive reader with a shared cursor. Every layout of a value is read back as
  that value, and exactly which documents are not is proved. `YamlReader` is the reader as it runs, on a mutable cursor.
- **HTTP responses** (`HttpChunks`, `HttpChunkWire`, `HttpChunkGrammar`,
  `HttpStream`, `HttpHeads`, `HttpReply`): the stream splitter and the two chunked decoders, as in sections
  6.3 and 7.1 of RFC 9112, on whole streams, cut streams and arbitrary input.
- **ar(1)** (`Ar`, `ArCursor`, `ArWalk`, `ArEntries`, `ArRoundTrip`): the reader
  and writer, where the reader's cursor goes, and exactly when one undoes the
  other.
- **Freeze tool** (`FreezeManifest`, `FreezeWrite`, `FreezeDigests`,
  `FreezeRatchet`): what a clean check means, that a freeze is clean, and that
  refreezing does not lose recomputed digests.
- **Trace correlation** (`Winsock`, `WinsockJoins`): one pass with two maps
  against the joins it stands for.
- **Smaller pieces**: the JSON depth scanner (`JsonDepth`), the glob compiler and
  the selector (`Glob`, `Satellites`), the replay oracle (`ReplayOracle`) and the
  type-strict comparers (`Compare`, `FixtureCompare`).

`Wrappers`, `Text`, `Utf8`, `Numerals` and `Trees` hold what Python's `str`,
`encode`, `int` and parsed values contribute.

Code that works step by step is a method with a loop, or a class with fields,
proved against a function; the properties are then proved about the function.
Byte strings are strings whose characters are the bytes. Files, git objects,
hashes, JSON texts and operating-system calls are parameters.

## Findings

Where a property fails of the code, the code is modelled as it is. A lemma gives
an input where it fails, and another the exact condition under which it holds.

- A sequence item that is a mapping with a quoted first key, written on the dash
  line, is read as a scalar; so is a sequence there whose first line has no
  colon. An unquoted scalar that looks like an entry is read as a mapping
  (`MappingAsScalar`, `SequenceAsScalar`, `EntryAsScalar`; exactly when:
  `DocumentReadsIff`).
- The chunk encoder on an empty body writes two final chunks, which the strict
  decoder refuses (`EncodedEmptyFails`; `EncodedDecodesIff`).
- Both chunk decoders accept a negative size: minus seven means all but the last
  seven bytes (`NegativeSizeIsAccepted`; `AcceptsIff`, `ProperIff`).
- The response parser takes a body that a 204, 304 or 100 status rules out, and
  a status line without a code; the splitter then disagrees (`ReadersDisagree`;
  `ReadersAgreeIff`).
- `build_ar` is called the inverse of `read_ar`. It is not for a name with a
  leading space or a trailing slash, nor for repeated names. A name field is
  padded in characters and read in bytes, so a name of 16 characters or more,
  or one outside ASCII, makes its header too long, and from there on hardly anything
  comes back (`SlashIsLost`, `AccentIsLost`; `RoundTripIff`). A trailing space is
  kept as long as the slash follows it.
- A size of -60 or -61 in an archive keeps `read_ar` at one header for ever; a
  smaller one moves it back, and it never ends exactly if it comes back to where
  it was (`MinusSixtyIsEndless`; `EndlessIff`, `AdvancesIff`).
- A freeze that leaves an entry out forgets that it was recomputed
  (`RatchetForgets`; `RatchetIff`).
- An address that changes owner makes a record and its creation carry different
  pids (`OwnerChangeSplitsPids`; `SamePidIff`).
- The 3000-file limit counts repeated paths, so a list with repeats can select
  more than a list of more files (`RepeatsBreakMonotone`; `MonotoneIff`).
- NaN equals nothing, so the comparers refuse a tree that holds one against
  itself (`NaNDiffers`; `StrictEqIff`, `IsEquivalence`).

## Model

| member | source | states |
|---|---|---|
| PtyMarkers.FindIterStable | scripts/rust-port/mcp-approval-pty.py:167 | the markers found in a transcript are a prefix of the markers found in any longer one: no marker is lost, moved or reread as output arrives |
| PtyDriver.NextTarget | scripts/rust-port/mcp-approval-pty.py:168 | the target is the first unused marker of the wanted signal, and there is none exactly if every such marker is used |
| PtyDriver.MatchStable | scripts/rust-port/mcp-approval-pty.py:160-179 | a round that answers a prompt answers it the same way on every longer transcript |
| PtyDriver.ResumeSame | scripts/rust-port/mcp-approval-pty.py:169-171 | a round broken off for want of a marker, with its cursor put back, resumes as if it had never been tried |
| PtyDriver.AdvanceInTwo | scripts/rust-port/mcp-approval-pty.py:160-179 | matching now and again after more output is matching once after all of it |
| PtyDriver.SignalIdleCatchesUp | scripts/rust-port/mcp-approval-pty.py:181-186 | the idle loop signals exactly the markers not yet signalled, each once, in order |
| PtyDriver.ReadAfterSeen | scripts/rust-port/mcp-approval-pty.py:143-186 | one read carries the state of a transcript to the state of the longer transcript |
| PtyDriver.RunFromSeen | scripts/rust-port/mcp-approval-pty.py:143-186 | so does any list of reads |
| PtyDriver.ReadsDoNotMatter | scripts/rust-port/mcp-approval-pty.py:143-186 | two ways of cutting one transcript into reads end in the same sent count, cursor, used markers, answers and idle signals, namely those of reading it at once |
| PtyDriver.NextTargetIsNth | scripts/rust-port/mcp-approval-pty.py:167-172 | with the earlier signal actions served, the next target of a signal is its marker number (earlier actions of that signal), if there is one |
| PtyDriver.GreedyStaysAhead | scripts/rust-port/mcp-approval-pty.py:160-164 | greedy matching ends no later than any ordered, non-overlapping placement of the same prompts |
| PtyDriver.GreedyPlaces | scripts/rust-port/mcp-approval-pty.py:160-164 | where greedy matching succeeds it is itself such a placement |
| PtyDriver.FeasibleIffGreedy | scripts/rust-port/mcp-approval-pty.py:160-179 | some placement of the first j prompts with enough markers for their signals exists iff greedy matching places them and the markers suffice |
| PtyDriver.StopIsForced | scripts/rust-port/mcp-approval-pty.py:162-171 | where the loop breaks off no larger count is feasible: one more prompt cannot be placed after the others, or its signal has no marker left |
| PtyDriver.AdvanceSettles | scripts/rust-port/mcp-approval-pty.py:160-179 | every advance from an accounted state ends accounted and stuck for good on this transcript |
| PtyDriver.SentIsLargestFeasible | scripts/rust-port/mcp-approval-pty.py:160-179 | sent is the largest j whose first j prompts can be placed with enough markers per signal; each signal action used its own marker and each action had its own effect |
| PtyDriver.Driver.constructor | scripts/rust-port/mcp-approval-pty.py:143-144 | a driver that has read nothing |
| PtyDriver.Driver.FindTarget | scripts/rust-port/mcp-approval-pty.py:167-168 | the loop over the markers finds the specified target |
| PtyDriver.Driver.AnswerPrompt | scripts/rust-port/mcp-approval-pty.py:161-179 | one round of the loop on the mutable state is the specified round |
| PtyDriver.Driver.AnswerPrompts | scripts/rust-port/mcp-approval-pty.py:160-179 | the matching loop on the mutable state is the specified advance |
| PtyDriver.Driver.SignalIdlers | scripts/rust-port/mcp-approval-pty.py:181-186 | the idle loop on the mutable state is the specified one |
| PtyDriver.Driver.Take | scripts/rust-port/mcp-approval-pty.py:143-186 | handling one read on the mutable state is the specified step |
| PtyDriver.Driver.Drive | scripts/rust-port/mcp-approval-pty.py:143-186 | after any reads the driver is in the state of the whole transcript, and sent is the largest feasible count |
| YamlScalars.SplitKeyIs | scripts/rust-port/device_list_differential.py:207-209 | an entry line is split into its key and its value again, for plain and both kinds of quoted keys |
| BlockYaml.Parse | scripts/rust-port/device_list_differential.py:219-247 | it terminates on every line list; called with the current line's indent it advances at least one line or fails, called with another it advances none |
| BlockYaml.ParseItem | scripts/rust-port/device_list_differential.py:224-233 | an item consumes at least one line, although the compact case rewrites the line and does not advance |
| BlockYaml.ParseEntryValue | scripts/rust-port/device_list_differential.py:240-246 | an entry consumes at least one line whatever its value is |
| YamlLayouts.ReadsBlock | scripts/rust-port/device_list_differential.py:219-247 | a printed block is parsed to its value and leaves exactly the lines after it, for any indentation of nested sequences and mappings |
| YamlLayouts.ReadsItem | scripts/rust-port/device_list_differential.py:224-233 | the same for one item, compact, indented, scalar or empty |
| YamlLayouts.ReadsCompact | scripts/rust-port/device_list_differential.py:228-230 | a block that starts on the dash line, a mapping or a sequence, is read as if it stood two columns deeper |
| YamlDocuments.LinesRoundTrip | scripts/rust-port/device_list_differential.py:211-212 | written lines are read back with their indents and contents |
| YamlDocuments.LayoutReadsBack | scripts/rust-port/device_list_differential.py:207-253 | printing any block document in any of its layouts and reading the text gives its value, with every line consumed |
| YamlDocuments.ScalarReadsBack | scripts/rust-port/device_list_differential.py:249-250 | a document of one scalar is read as that scalar |
| YamlDocuments.StyleDoesNotMatter | scripts/rust-port/device_list_differential.py:177-180 | two documents are read alike iff they hold the same value, whatever the layout and quoting of each |
| YamlDocuments.RestyleKeeps | scripts/rust-port/device_list_differential.py:177-180 | laying a document out anew keeps it well-formed and keeps its value |
| YamlDocuments.EncodersAgree | scripts/rust-port/device_list_differential.py:177-180 | sequences indented under their key and sequences flush with it are both read as the same value |
| YamlTaken.ParseTakes | scripts/rust-port/device_list_differential.py:219-247 | the parser takes lines from the front only, and none that is indented by less than it was called with |
| YamlTaken.KeyStays | scripts/rust-port/device_list_differential.py:235-247 | a key that no later line of the mapping sets keeps its value, however wrongly the lines in between are read |
| YamlExact.UnrecognisedDiffers | scripts/rust-port/device_list_differential.py:228-233 | an item that is not recognisable on its dash line is read as something else or not at all |
| YamlExact.ItemReadsIff | scripts/rust-port/device_list_differential.py:228-233 | an item that is well-formed inside is read back iff it is recognisable: not a mapping whose first key is quoted, an unquoted scalar that looks like an entry, or a sequence on the dash line that does not |
| YamlExact.SequenceReadsIff | scripts/rust-port/device_list_differential.py:221-234 | a sequence of such items is read back iff each of them is recognisable |
| YamlExact.BlockMisread | scripts/rust-port/device_list_differential.py:219-247 | one unrecognisable item, however deep in a block, makes the value of the whole block wrong |
| YamlExact.DocumentReadsIff | scripts/rust-port/device_list_differential.py:207-253 | a whole document is read back iff every item in it, at any depth, is recognisable, where no entry with such an item is overwritten by a later one of the same key |
| YamlExact.EntryAsScalar | scripts/rust-port/device_list_differential.py:228-230 | the item `- x: y`, meant as a scalar, is not read back |
| YamlExact.MappingAsScalar | scripts/rust-port/device_list_differential.py:228-233 | the item `- 'a': 1`, a mapping with a quoted key, is not read back |
| YamlExact.SequenceAsScalar | scripts/rust-port/device_list_differential.py:228-233 | the item `- - 1`, a sequence in a sequence, is not read back |
| YamlValues.EncodedIs | scripts/rust-port/device_list_differential.py:177-180 | whatever texts, key order and indentation an encoder chooses, if the reader knows its scalars and keys then what it writes is well-formed and means the value |
| YamlValues.ValueReadsBack | scripts/rust-port/device_list_differential.py:207-253 | every nested value, written by any such encoder, is read back as that value |
| YamlValues.QuotedIsRead | scripts/rust-port/device_list_differential.py:199-200 | a string with its quotes doubled, in single quotes, is read as that string, and as one key however many quotes and colons it holds |
| YamlValues.IntIsRead | scripts/rust-port/device_list_differential.py:201-202 | the decimal text of every integer is read as that integer |
| YamlValues.QuotedReadsBack | scripts/rust-port/device_list_differential.py:177-253 | every nested value without floats, from the encoder that quotes each string, is read back with the scalar reader of the script, for every key order and indentation |
| YamlReader.Cursor.constructor | scripts/rust-port/device_list_differential.py:211-214 | a cursor on the first line |
| YamlReader.Cursor.Parse | scripts/rust-port/device_list_differential.py:219-247 | the cursor that moves and overwrites lines in place gives the value, and is left at the lines, of the specified parse |
| YamlReader.Cursor.ParseSequence | scripts/rust-port/device_list_differential.py:221-234 | the same for the loop over items |
| YamlReader.Cursor.ParseItem | scripts/rust-port/device_list_differential.py:224-233 | the same for one item, with the rewritten line, and it moves forward |
| YamlReader.Cursor.ParseMapping | scripts/rust-port/device_list_differential.py:235-247 | the same for the loop over entries |
| YamlReader.Cursor.ParseEntry | scripts/rust-port/device_list_differential.py:237-246 | the same for one entry and its key |
| YamlReader.Cursor.ParseValue | scripts/rust-port/device_list_differential.py:240-246 | the same for the value of an entry |
| YamlReader.MiniYaml | scripts/rust-port/device_list_differential.py:211-253 | the reader on a text is the specified one, with the assertion on an empty document and on unparsed lines |
| YamlCompare.Check | scripts/rust-port/device_list_differential.py:256-261 | the comparison passes iff both outputs are non-empty and are read as one and the same value without NaN |
| YamlCompare.PassesIff | scripts/rust-port/device_list_differential.py:256-261 | two documents in layouts of their own pass iff they hold the same value and no NaN |
| HttpChunks.DecodeLenient | scripts/rust-port/http_replay_contract.py:326-340 | the loop of the stream splitter is the lenient decoder, with its cut and failing ends |
| HttpChunks.DecodeStrict | scripts/rust-port/http_process_contract.py:124-134 | the loop of the response parser is the strict decoder |
| HttpChunks.ReadLine | scripts/rust-port/http_process_contract.py:126-127 | splitting off and reading a size line |
| HttpChunks.DecodersAgree | scripts/rust-port/http_process_contract.py:124-134 | what the strict decoder accepts, the lenient one takes for the same entity with nothing left, on every body |
| HttpChunks.StrictIffFollowed | scripts/rust-port/http_process_contract.py:130-133 | what the lenient decoder takes as a whole, the strict one accepts, as the same entity, iff every chunk is followed by its CRLF |
| HttpChunkWire.LenientDecodes | scripts/rust-port/http_replay_contract.py:326-340 | the lenient decoder gives the data of any chunks back, and what follows them |
| HttpChunkWire.StrictDecodes | scripts/rust-port/http_process_contract.py:124-134 | so does the strict one |
| HttpChunkWire.LenientCut | scripts/rust-port/http_replay_contract.py:327-339 | chunks cut anywhere before their end are marked cut with a prefix of the entity, or fail on the final chunk where the cut is inside the last line break |
| HttpChunkWire.AnyDivisionDecodes | scripts/rust-port/http_framing_contract.py:63-75 | a body divided into non-empty chunks in any way is decoded to that body by both decoders, through the printed hexadecimal sizes |
| HttpChunkWire.BytewiseDecodes | scripts/rust-port/http_framing_contract.py:75 | the chunks of one byte each, made from the encoder by cutting off its last chunk, are decoded to the body by both decoders |
| HttpChunkWire.EncodedDecodesIff | scripts/rust-port/http_framing_contract.py:63-64 | the encoder is undone by the strict decoder iff the body is not empty |
| HttpChunkGrammar.AcceptsIff | scripts/rust-port/http_process_contract.py:124-134 | the strict decoder accepts a body iff it is a list of chunks with CRLF after each and an empty last one, where each size line gives the length of its data or minus the length of what follows it; and then it gives their data |
| HttpChunkGrammar.ProperIff | scripts/rust-port/http_process_contract.py:124-134 | a body is in the wire form, each size line giving the length of its data, iff it is accepted and no size line that is read is negative |
| HttpChunkGrammar.NegativeSizeIsAccepted | scripts/rust-port/http_process_contract.py:131-133 | both decoders take a body with the chunk size -7 for a complete one |
| HttpStream.FramesPayload | scripts/rust-port/http_replay_contract.py:320-347 | each kind of complete payload is framed as exactly its entity, and what follows is left |
| HttpStream.TakesMessages | scripts/rust-port/http_replay_contract.py:310-352 | complete responses come out in order whatever follows them |
| HttpStream.SplitsExactly | scripts/rust-port/http_replay_contract.py:307-353 | the concatenation of complete self-delimiting responses is split into exactly those responses, with their exact entities and no truncation mark |
| HttpStream.CutMessage | scripts/rust-port/http_replay_contract.py:311-352 | a response cut strictly inside gives one truncated row that holds a prefix of its head or of its entity, or fails its final-chunk assertion, and which of the two is settled by the place of the cut |
| HttpStream.CutStream | scripts/rust-port/http_replay_contract.py:310-352 | a stream cut strictly inside its last response keeps the earlier responses unchanged and never reports the cut one as complete |
| HttpHeads.BlockEnds | scripts/rust-port/http_replay_contract.py:311-317 | the end of a head block is found at its blank line and no earlier |
| HttpHeads.BlockIsHeadText | scripts/rust-port/http_replay_contract.py:311-317 | a printed head block is read as its head before any body, and no proper prefix of it is read as a head |
| HttpHeads.PrintedIsWf | scripts/rust-port/http_replay_contract.py:311-347 | every printed head with a fitting payload is a complete response for the readers the splitter uses |
| HttpHeads.FrameBody | scripts/rust-port/http_replay_contract.py:320-347 | the framing of one response, with the chunk loop, gives the specified entity, rest and truncation mark or the specified failure |
| HttpHeads.SplitStream | scripts/rust-port/http_replay_contract.py:307-353 | the splitting loop gives the specified rows or the specified failure |
| HttpHeads.PrintedSplits | scripts/rust-port/http_replay_contract.py:307-353 | for the readers the script uses: printed responses, one after the other, are split into exactly those responses |
| HttpHeads.PrintedCut | scripts/rust-port/http_replay_contract.py:307-353 | and cut strictly inside the last of them, the others stay as they are and the last is never reported as complete |
| HttpReply.ReadReply | scripts/rust-port/http_process_contract.py:111-140 | the response parser gives the specified reply or failure |
| HttpReply.ReadersAgreeIff | scripts/rust-port/http_process_contract.py:111-140 | where the response parser accepts, the stream splitter gives one complete row with the same entity iff the status line has an integer code and that code leaves room for the body sent |
| HttpReply.ReadersDisagree | scripts/rust-port/http_process_contract.py:136 | a 204 response with one byte of content is read with it by the response parser and split without it by the splitter |
| Ar.BuildAr | scripts/rust-port/release_contract.py:575-581 | the writing loop gives the specified archive: a name field padded to 16 characters and then encoded |
| Ar.ReadMember | scripts/rust-port/release_contract.py:132-136 | one turn of the reading loop is the specified one, for any cursor, any size, negative ones included, and bytes that decode or not |
| Ar.ReadAr | scripts/rust-port/release_contract.py:127-137 | the reading loop gives the specified members or failure, or is found to go round for ever |
| Ar.ReadLoop | scripts/rust-port/release_contract.py:130-137 | the loop with its cursor gives the specified reading, and stops where a position comes back |
| ArCursor.EndlessIff | scripts/rust-port/release_contract.py:131-136 | a reading is endless iff the loop always has another turn, which is iff its cursor comes back to a position it was at |
| ArCursor.AdvancesIff | scripts/rust-port/release_contract.py:136 | a turn moves the cursor forward iff the size is at least -59, and leaves it where it is iff the size is -60 or -61 |
| ArCursor.SmallSizesEnd | scripts/rust-port/release_contract.py:131-136 | data is read to an end if no header that the loop gets to has a size below -59, whatever the blobs hold |
| ArCursor.MinusSixtyIsEndless | scripts/rust-port/release_contract.py:131-136 | an archive whose first size is -60 is never read to an end |
| Utf8.DecodeEncode | scripts/rust-port/release_contract.py:579 | every text is decoded from its encoding |
| Utf8.DecodedIs | scripts/rust-port/release_contract.py:133-134 | whatever is decoded encodes to the bytes it was read from: overlong and stray bytes are refused |
| ArEntries.EntryReads | scripts/rust-port/release_contract.py:132-136 | an entry whose size has room is read from up to two bytes before it: its name as far as it is seen and as many bytes as it has; three to nine bytes ahead its size raises |
| ArWalk.EntriesRead | scripts/rust-port/release_contract.py:131-136 | the loop reads any entries that fit one after the other, and gets ahead by what each header is longer than 60 bytes |
| ArEntries.ArchiveReads | scripts/rust-port/release_contract.py:127-137 | a written archive whose entries fit is read as its members, each as the reader sees it, put into a dictionary in order, or raises |
| ArRoundTrip.NameIsReadIff | scripts/rust-port/release_contract.py:133 | a name is read back iff it has no leading space and no trailing slash, its encoding is seen in full, and where its slash is out of sight it has no trailing space; two bytes ahead, iff it repeats the end of a header |
| ArRoundTrip.RoundTripIff | scripts/rust-port/release_contract.py:575-581 | for entries that fit, reading what was written gives exactly the members iff their names are distinct and each member is kept: its name is read back, and once the headers are one or two bytes too long in all its bytes repeat the end of its header |
| ArRoundTrip.ShortNamesIff | scripts/rust-port/release_contract.py:575-581 | with ASCII names of at most 15 characters and sizes of at most 10 digits that is iff the names are distinct, start with no space and end with no slash |
| ArRoundTrip.SlashIsLost | scripts/rust-port/release_contract.py:133 | a member named `a/` does not come back |
| ArRoundTrip.AccentIsLost | scripts/rust-port/release_contract.py:579 | a member with the name U+00E9 and the blob `x` does not come back: its header is a byte too long |
| ArRoundTrip.EveryArchiveIsPlain | scripts/rust-port/release_contract.py:127-137 | whatever the bytes and the sizes, every archive that is read to an end has distinct names of at most 16 bytes without leading space or trailing slash |
| FreezeManifest.ParseManifest | scripts/rust-port/fixtures_verify.py:328-344 | the loop over the lines gives the specified entries, malformed lines and duplicates |
| FreezeManifest.CheckFiles | scripts/rust-port/fixtures_verify.py:356-365 | the failures are exactly those of some file in scope, and the count is that of the files in scope whose bytes match |
| FreezeManifest.CheckListed | scripts/rust-port/fixtures_verify.py:366-369 | exactly the listed paths in scope that are not on disk are reported |
| FreezeManifest.CheckSelected | scripts/rust-port/fixtures_verify.py:370-372 | exactly the selections without a fixture are reported |
| FreezeManifest.CheckBytes | scripts/rust-port/fixtures_verify.py:353-373 | the failures are exactly those of the manifest, the files, the listed paths and the selections |
| FreezeWrite.CleanIff | scripts/rust-port/fixtures_verify.py:353-373 | the byte check is clean iff the manifest has no malformed or duplicate line, lists exactly the frozen files in scope with their hashes, and every selection has a fixture |
| FreezeWrite.TextIsRead | scripts/rust-port/fixtures_verify.py:334-343 | the written text is read as the map of files to hashes, with no failure |
| FreezeWrite.WrittenIsClean | scripts/rust-port/fixtures_verify.py:591-599 | after a write the unrestricted byte check is clean |
| FreezeWrite.ListedIsPrintable | scripts/rust-port/fixtures_verify.py:334-343 | no path with a line break or a leading space is ever read from a manifest |
| FreezeWrite.FreezeIsCleanIff | scripts/rust-port/fixtures_verify.py:591-599 | after the two-stage write the unrestricted byte check is clean iff every frozen path is free of line breaks and leading space, and then the manifest lists the sidecar and not itself |
| FreezeDigests.FindRebuild | scripts/rust-port/fixtures_verify.py:430-433 | the loop over refs and algorithms finds the first rebuild |
| FreezeDigests.ClassifyEntry | scripts/rust-port/fixtures_verify.py:415-434 | the classification with its search gives the specified class, algorithm and ref |
| FreezeDigests.BuildManifest | scripts/rust-port/fixtures_verify.py:458-471 | the loop over the scan gives the specified sidecar entries |
| FreezeDigests.CheckDigests | scripts/rust-port/fixtures_verify.py:485-525 | the problems are exactly those of the records in scope and of the stored entries that are absent |
| FreezeDigests.CheckAbsent | scripts/rust-port/fixtures_verify.py:522-525 | exactly the stored entries in scope that were not seen are reported |
| FreezeDigests.CleanDigestsIff | scripts/rust-port/fixtures_verify.py:474-526 | an unrestricted check is clean iff the sidecar has exactly the scanned entries, each with the claimed value, and every recomputed one equals the digest rebuilt from the blobs of a resolved and held ref |
| FreezeDigests.ClassifyRebuilds | scripts/rust-port/fixtures_verify.py:415-434 | an entry classed as recomputed carries an algorithm and a ref that rebuild the claim |
| FreezeDigests.FreshCheckIff | scripts/rust-port/fixtures_verify.py:458-526 | checking a scan with distinct ids against the sidecar built from it, in any later store where no ref of a recomputed entry names other content, is clean iff each of these refs still resolves and is held, and reports nothing else |
| FreezeRatchet.Tree.constructor | scripts/rust-port/fixtures_verify.py:568 | a working tree |
| FreezeRatchet.Tree.FindDowngraded | scripts/rust-port/fixtures_verify.py:582-585 | exactly the entries that were recomputed and would no longer be |
| FreezeRatchet.Tree.WriteManifest | scripts/rust-port/fixtures_verify.py:594-595 | the manifest is written for the files on disk and nothing else changes |
| FreezeRatchet.Tree.WriteAll | scripts/rust-port/fixtures_verify.py:573-595 | the whole write on the mutable tree is the specified one, with its refusal |
| FreezeRatchet.RefusedIff | scripts/rust-port/fixtures_verify.py:577-590 | without the override a write is refused iff some entry would be downgraded; a refused write leaves every file as it was, any other stores the new entries |
| FreezeRatchet.WriteThenCheckIff | scripts/rust-port/fixtures_verify.py:591-599 | for distinct ids, after a write that is not refused and while the refs it recomputed from name the same blobs, the byte check and the digest check are both clean iff every frozen path can be listed and every ref a digest was recomputed from still resolves and is held |
| FreezeRatchet.StepKeepsIff | scripts/rust-port/fixtures_verify.py:577-595 | one step keeps a recomputed entry iff it is no write, or is refused, or holds the entry |
| FreezeRatchet.RatchetIff | scripts/rust-port/fixtures_verify.py:577-595 | over any edits that leave the sidecar alone and any writes without the override, a recomputed entry is recomputed at every point iff every accepted write holds it |
| FreezeRatchet.RatchetHolds | scripts/rust-port/fixtures_verify.py:577-595 | in particular an entry present in every write stays recomputed once it is |
| FreezeRatchet.RatchetForgets | scripts/rust-port/fixtures_verify.py:582-585 | an entry absent from an accepted write can come back as merely recorded |
| Winsock.Correlate | scripts/rust-port/http_winsock_metadata.py:54-144 | the loop with its maps, its records and its closing check on the observed processes gives the specified records or failure |
| WinsockJoins.RunAgrees | scripts/rust-port/http_winsock_metadata.py:58-141 | after any number of events the two maps and the records are what the events so far say: last owner, last creation by a traced server, published events |
| WinsockJoins.PublishesJoins | scripts/rust-port/http_winsock_metadata.py:58-144 | the records are the published events in order, each with the pid and the creation it belongs to, and the traced servers are exactly the pids seen |
| WinsockJoins.IdsPointToCreations | scripts/rust-port/http_winsock_metadata.py:86-141 | every endpoint id is the index of a published creation at or before the record, the latest of its process and endpoint by a traced server; a creation carries its own index |
| WinsockJoins.SamePidIff | scripts/rust-port/http_winsock_metadata.py:86-141 | a record and its creation have the same pid iff, whenever the process address passed to another process between the two, it passed back before the record |
| WinsockJoins.SamePid | scripts/rust-port/http_winsock_metadata.py:86-141 | while no process address changes owner, a record and its creation have the same pid |
| WinsockJoins.OwnerChangeSplitsPids | scripts/rust-port/http_winsock_metadata.py:86-141 | where an address does change owner they can differ |
| JsonDepth.NestingDepth | scripts/rust-port/http_token_contract.py:183-202 | the byte loop gives the deepest level of the specified scan |
| JsonDepth.ScanValue | scripts/rust-port/http_token_contract.py:187-201 | from any level outside a string, scanning a printed value returns to that level and raises the deepest by exactly its depth |
| JsonDepth.ScanMeasuresDepth | scripts/rust-port/http_token_contract.py:183-202 | for every JSON value, printed with any white space and escapes and with brackets and quotes inside strings, the scan ends outside strings at level zero and has measured exactly the nesting depth |
| Glob.CompileGlob | scripts/ci_macos_satellites.py:331-357 | the loop gives the specified expression, or fails on an unsupported character |
| Glob.ReadsEmitted | scripts/ci_macos_satellites.py:331-357 | the emitted text, read as a regular expression, is the intended one: nothing is swallowed by a quantifier or left unescaped |
| Glob.GlobImpliesRegex | scripts/ci_macos_satellites.py:331-357 | a path in the direct meaning of the glob matches the expression |
| Glob.RegexImpliesGlob | scripts/ci_macos_satellites.py:331-357 | a path that matches the expression is in the direct meaning of the glob |
| Glob.RegexMeansGlob | scripts/ci_macos_satellites.py:331-357 | for every accepted glob and every path without line breaks the compiled expression matches iff the glob does |
| Satellites.AnyPathMatches | scripts/ci_macos_satellites.py:381 | some pattern matches some path |
| Satellites.CompileAll | scripts/ci_macos_satellites.py:380 | every pattern is compiled, or the first unsupported one fails |
| Satellites.SelectKeys | scripts/ci_macos_satellites.py:378-381 | each satellite is on iff one of its patterns matches a changed path, and the selection fails iff some pattern is unsupported |
| Satellites.AddGroups | scripts/ci_macos_satellites.py:382-383 | each group is on iff one of its satellites is |
| Satellites.Select | scripts/ci_macos_satellites.py:370-384 | the selector decides by the changed files iff they are known, below the limit, and the patterns are supported; other events select everything |
| Satellites.Decide | scripts/ci_macos_satellites.py:415-427 | whatever the selector cannot decide selects everything |
| Satellites.OnIff | scripts/ci_macos_satellites.py:370-427 | a satellite is on iff nothing could be filtered or some changed path matches one of its globs in the glob's own meaning |
| Satellites.Monotone | scripts/ci_macos_satellites.py:370-427 | more changed files switch nothing off where the longer list is not newly under the limit |
| Satellites.MonotoneInFiles | scripts/ci_macos_satellites.py:370-427 | without repeated files the decisions are monotone in the changed files, across the limit and the fallback |
| Satellites.MonotoneIff | scripts/ci_macos_satellites.py:370-427 | with repeats they are monotone iff the smaller set is listed below the limit, or the larger one is not filtered, or it reaches everything |
| Satellites.RepeatsBreakMonotone | scripts/ci_macos_satellites.py:312 | one file listed three thousand times selects a satellite that the same file listed once leaves off |
| ReplayOracle.Sandbox.constructor | scripts/rust-port/data_safety_contract.py:223-226 | a sandbox where Rust has not run |
| ReplayOracle.Sandbox.RunRust | scripts/rust-port/data_safety_contract.py:223-226 | running Rust marks the sandbox for good |
| ReplayOracle.GoOracle.constructor | scripts/rust-port/data_safety_contract.py:150-153 | an oracle with its cursors and counts at the start and the verdicts by key |
| ReplayOracle.GoOracle.FindCall | scripts/rust-port/data_safety_contract.py:170 | the first recorded call with the key |
| ReplayOracle.GoOracle.Invoke | scripts/rust-port/data_safety_contract.py:159-175 | one call numbers itself, counts by role, and answers from the attested verdicts or applies the recorded effect, or fails and leaves the tree alone |
| ReplayOracle.TreeStep | scripts/rust-port/data_safety_contract.py:159-175 | what one operation makes of a tree: what Rust leaves, the recorded effect of a seed call, or nothing |
| ReplayOracle.Perform | scripts/rust-port/data_safety_contract.py:159-175 | one operation on the mutable oracle and sandbox succeeds iff the specified one does, with the same counts, mark and tree |
| ReplayOracle.Replay | scripts/rust-port/data_safety_contract.py:159-175 | running any operations succeeds iff the specified run does, with the same counts and marks, and each tree is what the last Rust run left there or, without one, the recorded effects of its calls in order |
| ReplayOracle.RunKeeps | scripts/rust-port/data_safety_contract.py:159-175 | every run keeps numbers, roles, counts and marks in step with the log of what happened |
| ReplayOracle.CallsAreOrdered | scripts/rust-port/data_safety_contract.py:159-175 | the calls of a sandbox are numbered in order from zero, and after a reverse call there are only reverse calls |
| ReplayOracle.EveryNumberIsUsed | scripts/rust-port/data_safety_contract.py:161-162 | no number below the count of calls is left out |
| ReplayOracle.NoSeedAfterRust | scripts/rust-port/data_safety_contract.py:160-174 | no recorded effect is applied in a sandbox after Rust ran there |
| ReplayOracle.KeyInjective | scripts/rust-port/data_safety_contract.py:162 | a call key determines the sandbox and the number, whatever the names contain |
| ReplayOracle.ReliedDistinct | scripts/rust-port/data_safety_contract.py:164-169 | no verdict is relied on twice and each one is attested |
| ReplayOracle.ClosingCountMeansAll | scripts/rust-port/data_safety_contract.py:739-740 | where the closing count holds, reverse calls and attested verdicts correspond one to one |
| Compare.StrictEqIff | scripts/rust-port/go_observations_common.py:232-251 | type-strict equality is being the same tree with no NaN in it |
| Compare.NoneIffEqual | scripts/rust-port/go_observations_common.py:232-251 | no difference is reported iff the trees are type-strictly equal |
| Compare.NaNDiffers | scripts/rust-port/go_observations_common.py:251 | a list with NaN in it differs from itself, at that element |
| Compare.ReportedIsReal | scripts/rust-port/go_observations_common.py:232-251 | a reported path exists on both sides up to its end, differs there in the way reported, and everything before it in the order of comparison is equal |
| FixtureCompare.StrictInside | scripts/rust-port/mcp_fixture_contract.py:82-97 | below a root value nothing is skipped: no key, with slashes or without, makes another path look like that of the oracle |
| FixtureCompare.AcceptsIff | scripts/rust-port/mcp_fixture_contract.py:82-97 | the comparison accepts iff the trees are type-strictly equal after blanking the identity of the root oracle and the root generator digest, keys kept, for any roots |
| FixtureCompare.IsEquivalence | scripts/rust-port/mcp_fixture_contract.py:82-97 | it is symmetric and transitive, and accepts a fixture against itself iff no compared value is NaN |
| FixtureCompare.PassesIff | scripts/rust-port/mcp_fixture_contract.py:80-103 | a capture passes iff it equals the recorded fixture apart from the identity, has the expected number of cases and is bound to an allowed commit |

## Left out

- The Rust crates and the servers the contracts sample: not part of this model.
- Sockets, TLS, pseudo-terminals, processes, delivered signals, terminal flags, timeouts and partial writes: reads are an arbitrary list of strings, effects are a list.
- The PTY driver's count of restored cancellations, its final drain and its exit status: they depend on terminal flags and child processes.
- SHA-256, base64, XML, JSON texts and the git object store: parameters; a stored sidecar is encoded by any pair that round-trips.
- JSON string escapes, the folding of line breaks inside quoted scalars, and decimal fractions in `scalar`: a parameter of the reader; the layout results hold for any scalar reader.
- Python's identification of `True`, `1` and `1.0` as one dictionary key: keys of different types are different here.
- Digits outside ASCII, and the limit on the length of integer texts, in `int` and `\d`.
- `headers_without_date`, the raw and base64 copies in the HTTP rows, and the reset flag: they only repeat other fields.
- Chunk extensions: they are not read by either decoder as a size.
- Names with unpaired surrogates, which `encode` refuses: a name is a string of Unicode scalar values.
- ArRoundTrip.RoundTripIff: says nothing of blobs whose sizes have no room in the columns that are read, which takes 10^10 bytes, or 10^9 once the reader is one byte ahead and 10^8 once it is two; nor of an archive whose names have at most 16 bytes each and where one of them puts the reader ten or more bytes ahead, so that the mode is read as the size, which takes a name with at least eight bytes more than characters.
- ArEntries.ArchiveReads: the same limits, for names of any length.
- YamlExact.DocumentReadsIff: says nothing of a document where an entry that holds an unrecognisable item is overwritten by a later entry with the same key.
- FreezeManifest.ParseManifest: failures do not carry line numbers.
- FreezeDigests.CheckDigests: does not model the counters per kind, nor the failure for a missing or unreadable sidecar.
- The extraction of claims from a fixture, `check_pins`, `--list-pins` and the choice of the generator ref: the scan is a list of records.
- The matching of file names to frozen globs: a predicate on paths.
- `number`, `final_loss_counters`, the loss summary and the XML extraction of the trace: an event is a record of its parsed fields, or the failure to have them.
- The contents of a recorded delta: an effect on the tree.
- Compare.ReportedIsReal: the path is a list of keys and indexes, not its printed form; an order of keys is a parameter, and the failure to sort keys of mixed types is not modelled.
- FixtureCompare.PassesIff: the message and the first offending path of a refusal are not modelled, only that the comparison refuses.
- Unicode decoding outside archive headers: a parameter, or the input is a text.
- `literal_roff_text` and the path tokens: they are not injective, so there is nothing to invert.
- Fixed case tables, expected counts, receipts, command lines and reports: finite data.
