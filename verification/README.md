# A verified model of the HoloNight configuration editor and store

The HoloNight configuration library edits TOML documents in place: it merges what
a caller saw, what is on disk and what the caller wants, changes only the bytes of
the edited keys, keeps comments and layout, and commits the result under a lock so
that other programs and crashes never leave a half-written document. This project
models that editor and that store in Dafny and proves what they keep.

| files | subject |
|---|---|
| `Bytes`, `Utf8`, `Positions`, `Quoting` | byte strings, UTF-8, parser positions, string quoting |
| `Splice`, `SpliceSize` | byte-span replacements, what the editor's splice loop computes, and the size of its result |
| `Scanner` | the two lexical scanners: `assignment` and `retainedComments` |
| `Documents`, `Patch`, `PatchProperties`, `PatchText` | values, schemas, the three-way patch with its planning state, what its verdict and success mean, and what it writes |
| `Fragment`, `FragmentLines`, `FragmentFrame`, `FragmentTally`, `FragmentPlan`, `FragmentPatch`, `FragmentLiterals`, `FragmentInsertion`, `FragmentPositions` | a concrete line-structured TOML v1.0.0 fragment, and what a successful patch of it binds |
| `FragmentReading`, `FragmentItems`, `FragmentCandidate`, `FragmentBindings`, `FragmentOverlap`, `FragmentSuccess`, `FragmentEndOfFile` | the candidate a plan makes, read line by line, and exactly when a patch succeeds |
| `Resolve` | following symbolic links to a document's target |
| `Images`, `SystemCalls`, `Commit`, `Store` | a directory with crashes and faulty system calls, the commit and removal routines, and a whole call |
| `Protocol`, `ProtocolSafety`, `ProtocolChecks`, `ProtocolSerial`, `ProtocolIntent`, `ProtocolResults`, `ProtocolRollback`, `ProtocolStaging`, `ProtocolAnswers`, `ProtocolCreation`, `ProtocolValues` | the commit protocol as steps of any number of processes among other programs |
| `Appearance`, `AppearanceMeaning`, `AppearanceDecoding`, `AppearanceFormat`, `AppearanceRuns` | decoding and upgrading appearance documents, and runs of appearance saves |
| `AppearanceText`, `AppearanceLines`, `AppearanceRoundTrip`, `AppearanceLayout` | the text of an appearance document, and reading it back |

How the parts fit. The TOML library is a parameter of the patch engine, a
deterministic parser and printer (`Documents.Toml`); results about `Patch` hold for
every such pair, and `Fragment.TOML` is one of them. The planning state, the
scanners, the validator, the splice, the link walk, the write loops and the commit
routines are methods with loops, proved against functions that say what they
compute; the lemmas then say what those functions mean, in terms of bytes, values
and trees alone (`PatchText` for what a patch writes, `ProtocolIntent` for what a call
does, `AppearanceDecoding` for what a document stands for). `Protocol` gives every
system-call boundary of `updateDocument` its own step, so runs interleave freely;
`Store.UpdateDocument` is the same call as straight-line code over a disk that
fails and crashes, and both are tied to the one serial step
`ProtocolSerial.Intended`.

Values are compared as C++ compares them: a NaN differs even from itself
(`Documents.Same`). `PatchProperties.NaNNeverSucceeds` and `NaNOnDiskConflicts` say
what follows.

Where the code and what one might expect of it differ, the code is modelled, a
concrete input is given, and the exact condition is proved for all inputs:

| what differs | input | exact condition |
|---|---|---|
| a good batch may be refused | `FragmentEndOfFile.GoodBatchIsRefused`: two insertions meet at the end of the file | `FragmentSuccess.SuccessExactly` |
| removing a value may lose its comment | `Scanner.CommentIsLost`: a multi-line string whose last character is its quote, and a comment behind it | `Scanner.RetainedAreTheComments` for what is kept, `Scanner.StrayQuoteSwallows` for what is lost |
| a path may resolve that the system refuses | `Resolve.TrailingSlashIsSkipped`: a slash after a regular file | `Resolve.WalkIsPosix` |
| a quoted string may be unreadable | `Quoting.RawControlIsNotReadable`: a raw control character | `Quoting.QuoteRoundTrip` and, for whole documents, `AppearanceRoundTrip.SerializeRoundTrip` |
| a rollback may be refused, and a staged file stay | `ProtocolCreation.CreationStays`: a new file, and a schema whose domain check looks at the path | `ProtocolRollback.RollbackUndoesStaging` |
| a saved document may come back old after a crash | `Commit.WriteThatACrashUndoes`: the older store never syncs the directory | `Commit.OldDocumentMayReturn` |

## Model

| member | source | states |
|---|---|---|
| `Utf8.IsValidUtf8` | src/appearance.cpp:37-77 | accepts a byte string exactly when it is a concatenation of encodings of Unicode scalar values: no overlong forms, surrogates or values above 10FFFF |
| `Utf8.EncodingIsUnique` | src/appearance.cpp:37-77 | a valid string has only one decoding |
| `Utf8.DecodesIffUtf8` | src/appearance.cpp:37-77 | the reference decoder succeeds exactly on concatenations of encodings |
| `Utf8.TrimKeepsUtf8` | src/appearance.cpp:30-35 | trimming neither breaks nor repairs UTF-8 |
| `Utf8.TrimIsTheMiddle` | src/appearance.cpp:30-35 | trimming returns the one middle part between surrounding space |
| `Utf8.TrimIsIdempotent` | src/appearance.cpp:107-118 | normalizing a name twice changes nothing more |
| `Positions.Offset` | src/document.cpp:24-38 | the line and column loops compute the byte offset of a parser position |
| `Positions.OffsetInvertsPosition` | src/document.cpp:24-38 | on UTF-8, the position of every code point boundary leads back to its byte |
| `Positions.OffsetIsStrictlyMonotone` | src/document.cpp:24-38 | positions in order have offsets in order |
| `Positions.DisjointRegionsStayDisjoint` | src/document.cpp:120-127 | disjoint parser regions become disjoint byte spans |
| `FragmentPositions.SpansAreOffsets` | src/document.cpp:112-131 | in a UTF-8 fragment document, every entry's span is what `offset` makes of the parser positions of its two ends |
| `Splice.SpliceIsSimultaneousSubstitution` | src/document.cpp:404-438 | coalescing, sorting descending in any order of ties, and splicing right to left under a boundary is simultaneous substitution on the original bytes, and is accepted exactly when all spans are well formed, inside and apart |
| `Splice.ReplacementsCommute` | src/document.cpp:423-438 | without insertions the order of the replacements does not matter |
| `Splice.SurvivorsKeepOrder` | src/document.cpp:430-438 | bytes outside every replaced span are in the result, in order |
| `SpliceSize.SubstitutedSize` | src/document.cpp:430-438 | the size of the result is that of the document plus what each replacement adds |
| `Scanner.Assignment` | src/document.cpp:74-110 | the scanner loop returns the assignment span, if any |
| `Scanner.AssignmentMeaning` | src/document.cpp:74-110 | there is one exactly when only a key with one unquoted equals sign precedes the value on its line |
| `Scanner.AssignmentOfTokens` | src/document.cpp:74-110 | behind any sequence of single-line strings and other bytes: exactly if one equals sign, and no brace, bracket, comma or hash, stands outside the strings |
| `Scanner.RetainedComments` | src/document.cpp:151-184 | the comment loop returns the comments of a value |
| `Scanner.RetainedIsCommentLines` | src/document.cpp:151-184 | for every input: a subsequence of it, comment lines only, and idempotent |
| `Scanner.RetainedAreTheComments` | src/document.cpp:149-184 | on any sequence of strings, comments and other text whose multi-line bodies do not end in their quote: exactly the comments |
| `Scanner.StrayQuoteSwallows` | src/document.cpp:149-184 | behind a multi-line string that holds one of its quotes right before its delimiter, which TOML v1.0.0 allows, no comment is kept up to the next such quote |
| `Scanner.CommentIsLost` | src/document.cpp:149-184 | a concrete value whose comment is lost so |
| `Quoting.Quote` | src/codec.cpp:89-121 | the quoting loop computes the quoted text |
| `Quoting.QuoteRoundTrip` | src/codec.cpp:89-121 | a TOML v1.0.0 basic-string decoder recovers the string exactly when it is valid UTF-8 without the control characters quoting leaves raw |
| `Quoting.RawControlIsNotReadable` | src/codec.cpp:114-116 | such a control character makes the quoted text unreadable |
| `Quoting.QuoteIsInjective` | src/codec.cpp:89-121 | different byte strings are quoted differently |
| `Quoting.OnlyTheLastQuoteCloses` | src/codec.cpp:89-121 | the only unescaped quote after the first is the last |
| `Quoting.QuotedStaysOnItsLine` | src/codec.cpp:89-121 | quoting leaves no tab, line break, backspace or form feed raw |
| `Documents.ValidateDocument` | src/document.cpp:254-277 | the validation loop collects what each field and the domain check report, and reports an error exactly if some value, the document's own or else the default, is of another kind than the default (an integer for a float excepted), or its validator or the domain check reports one |
| `Documents.ValidityIsFieldwise` | src/document.cpp:254-277 | validity, spelled out on the document's values, the defaults and the validators alone |
| `Documents.FieldReports` | src/document.cpp:256-272 | a field reports one error for a value of the wrong kind, else what its validator reports, and nothing without a value |
| `Patch.NormalizeEdits` | src/document.cpp:280-293 | every pending value becomes what its literal parses to, or the batch is refused |
| `Patch.PatchPlan.PlanEdit` | src/document.cpp:295-327 | one edit adds nothing, a conflict, an insertion or a replacement, or is refused; `PatchText` says which bytes that leaves |
| `Patch.PatchPlan.PlanEdits` | src/document.cpp:329-343 | the whole batch is planned, or planning stops at the first bad key |
| `Patch.InsertionPoint` | src/document.cpp:360-378 | the line search returns the front for root keys, and otherwise the end of the first line that starts inside no value and is, as the probe reads it, the header of the table; nothing exactly if there is no such line |
| `Patch.PatchPlan.PlanInsertions` | src/document.cpp:380-402 | every planned insertion becomes a replacement of an empty span |
| `Patch.PatchPlan.CoalesceInsertions` | src/document.cpp:404-419 | erasing in place leaves one insertion per point with the texts joined in order |
| `Patch.PatchPlan.ApplyReplacements` | src/document.cpp:421-449 | the splice loop, the reparse and the check: the substituted document if it is well formed, parses, and has every requested value |
| `Patch.PatchDocument` | src/document.cpp:452-490 | the whole patch, all refusals included |
| `PatchProperties.PlanVerdict` | src/document.cpp:295-343 | planning refuses exactly empty, repeated or unsafe keys; otherwise it reports exactly the edits whose disk value agrees with neither side, and replaces exactly the entries whose edit saw the disk value |
| `PatchProperties.PatchVerdict` | src/document.cpp:452-490 | the status of a whole patch of a valid document, and the reported conflicts field by field: each edit whose disk value is neither the pending one nor the baseline, with its key, baseline, disk and pending value |
| `PatchProperties.PatchRefusals` | src/document.cpp:452-490 | for every batch: an invalid document is refused with its own diagnostics before anything else, a snapshot comes exactly with success and is valid, and an error is reported exactly with the refusals |
| `PatchProperties.VerdictIgnoresBatchOrder` | src/document.cpp:295-343 | refusal of the batch and the conflicts do not depend on the order of the edits |
| `PatchProperties.PatchIgnoresBatchOrder` | src/document.cpp:295-343 | without new keys neither does any byte of the result |
| `PatchProperties.SuccessMeansSeenAndRealised` | src/document.cpp:443-447 | success has every requested value and replaced only values its caller had as baseline |
| `PatchProperties.NaNNeverSucceeds` | src/document.cpp:443-447 | a pending NaN never succeeds |
| `PatchProperties.NaNOnDiskConflicts` | src/document.cpp:297-304 | a NaN on disk conflicts with every edit of its key |
| `PatchProperties.RealisedIsIdentity` | src/document.cpp:297-300 | a document that already has every requested value is returned unchanged |
| `PatchProperties.PatchIsIdempotent` | src/document.cpp:452-490 | applying a successful batch to its own result gives the same result |
| `PatchProperties.EmptyBatchIsIdentity` | src/document.cpp:452-490 | the empty batch changes no byte of a valid document |
| `PatchProperties.UneditedBytesSurvive` | src/document.cpp:404-438 | every original byte outside the edited keys' own spans survives, in order |
| `PatchText.RemovalKeepsComments` | src/document.cpp:318-326 | where a removed assignment was, exactly the comments of its value stand, whatever else the batch does, with the surviving bytes before and behind it where they were |
| `PatchText.OneRemoval` | src/document.cpp:295-327 | removing one key cuts out its assignment and leaves exactly its comments |
| `PatchText.OneSetting` | src/document.cpp:295-327 | setting one key replaces exactly the bytes of its value by the printed literal |
| `PatchText.OneAddition` | src/document.cpp:306-402 | adding one key writes exactly one line, behind the first header of its table, at the front for the root, or at the end behind a new header, and ends lines with CRLF exactly if the document does somewhere |
| `PatchText.NormalizeMeaning` | src/document.cpp:280-293 | normalizing succeeds exactly if every pending value's literal is read back as one value, and gives those values |
| `PatchProperties.InsertionIsWholeLines` | src/document.cpp:380-402 | one insertion starts at a line start and ends with a newline, with CRLF, without final newline, and for new tables |
| `PatchProperties.InsertedTextIsWholeLines` | src/document.cpp:404-419 | and so does whatever shares a point |
| `FragmentInsertion.ProbeFindsHeader` | src/document.cpp:345-358 | in the fragment, the probe recognises exactly the header of the parent table |
| `FragmentInsertion.InsertionPointMeaning` | src/document.cpp:360-378 | in the fragment, keys go right behind their table's header, root keys to the front, and keys of a table without a header that can be probed to the end |
| `FragmentInsertion.PrintedAssign` | src/document.cpp:309-316 | in the fragment, an inserted line reads back as its key and value |
| `FragmentFrame.LineOutKind` | src/document.cpp:323-325 | in the fragment, an edited line is the same kind as before, no header, or blank |
| `FragmentTally.PatchedTally` | src/document.cpp:421-438 | in the fragment, from every line on, the patched text keeps unedited bindings and binds at most what was kept or inserted |
| `FragmentPlan.InsertionsPlaced` | src/document.cpp:380-419 | in the fragment, insertions are key lines at line starts, or lines behind a line ending at the end of the file |
| `FragmentPlan.PlannedInsertionLines` | src/document.cpp:309-316 | in the fragment, planning inserts one line for each new key |
| `FragmentPatch.PlanIsLineWise` | src/document.cpp:295-343 | in the fragment, every plan edits line by line |
| `FragmentPatch.PatchOverlaysBatch` | src/document.cpp:421-490 | in the fragment, success binds every edited key to its normalized pending value or to nothing, and every other key to what it had |
| `FragmentLiterals.PatchOverlaysRequest` | src/document.cpp:280-490 | the same with the requested values themselves |
| `FragmentReading.RowsRead` | src/document.cpp:309-316 | in the fragment, inserted lines bind exactly their keys and values under whatever section they stand in |
| `FragmentReading.HeaderLineRead` | src/document.cpp:391-400 | in the fragment, the header written for a new table is read back as that table |
| `FragmentReading.SetLineKind` | src/document.cpp:317-327 | in the fragment, replacing a value leaves the assignment of the new one |
| `FragmentItems.PlannedTables` | src/document.cpp:306-316 | in the fragment, the plan holds exactly the tables that receive keys, in the map's order, each with one line per new key in batch order |
| `FragmentItems.PathsAreLexicographic` | src/document.cpp:306-316 | that order is the lexicographic one of key paths |
| `FragmentCandidate.CandidateReads` | src/document.cpp:380-440 | in the fragment, from every line start on, the spliced text of any plan reads exactly as expected: every line as edited, the rows of each table where they go, and the headers brought along at the end |
| `FragmentOverlap.PlanNeverOverlaps` | src/document.cpp:430-437 | in the fragment, no plan has overlapping spans, so the splice never refuses one |
| `FragmentSuccess.SuccessExactly` | src/document.cpp:280-490 | in the fragment, a patch succeeds if and only if the schema accepts document and candidate, no key is bad, no edit conflicts, literals and result fit the limits, the keys and tables to come agree, and no table whose header is the last line receives a key together with a smaller table that has no header |
| `FragmentSuccess.MeetingIsRefused` | src/document.cpp:443-447 | every batch with nothing else wrong is refused when insertions so meet |
| `FragmentSuccess.OneTableNeverMeets` | src/document.cpp:380-402 | which never happens to edits of one table |
| `FragmentEndOfFile.GoodBatchIsRefused` | src/document.cpp:443-447 | the smallest such batch |
| `FragmentEndOfFile.EachEditSucceedsAlone` | src/document.cpp:421-490 | each of its edits succeeds alone |
| `Resolve.PrependLinkTarget` | src/document_store.cpp:24-39 | a link's components go in front of the work list in order, from the root if the link is absolute |
| `Resolve.ResolveTarget` | src/document_store.cpp:43-89 | the work-list loop ends on every file system, link cycles included, with the outcome of the walk |
| `Resolve.WalkIsPosix` | src/document_store.cpp:43-89 | recursive resolution (section 4.13 of POSIX.1-2017 Base Definitions, at most 40 links) arrives at a path exactly when the walk ends there, its directory exists, and the walk has met no empty component behind something that is no directory |
| `Resolve.TrailingSlashIsSkipped` | src/document_store.cpp:53-58 | a link with a trailing slash to a regular file is refused there and skipped here |
| `Resolve.TargetIsCanonical` | src/document_store.cpp:43-89 | a target has only names, and no link on the way or at the end |
| `Resolve.ResolveIsIdempotent` | src/document_store.cpp:43-89 | resolving a target gives the target |
| `Resolve.TargetIsNormal` | src/document_store.cpp:257-266 | a target is its own lexical normal form |
| `Resolve.NormalMeaning` | src/document_store.cpp:257-266 | a recorded path is taken for the target exactly if it ends in a name and reduces to it |
| `Resolve.ReducedByRewriting` | src/document_store.cpp:257-266 | reducing drops `.`, empty components, a name with `..` behind it, and `..` at the root, wherever they stand |
| `Resolve.CommitKeepsTarget` | src/document_store.cpp:181-192 | writing, creating or removing the file at the target does not move it |
| `Resolve.CreatingDirectoriesKeepsTarget` | src/document_store.cpp:291-294 | neither does creating its missing directories |
| `Images.RenamedOutcomes` | src/document_store.cpp:192-194 | renaming a synced file adds exactly that file to what a crash may leave |
| `Images.SyncedOutcomes` | src/document_store.cpp:197-202 | a directory sync leaves exactly the live entry |
| `Commit.WriteDocument` | src/document_store.cpp:157-168 | the write loop goes on after interrupted and short writes, has written everything when it succeeds, and fails exactly at a failed write or one of nothing |
| `Commit.ReplaceDocument` | src/document_store.cpp:139-204 | at every moment, crashed or not, the target reads as before or as the new bytes; success is durable with the old mode, a durability failure is live, anything else leaves the target alone; no temporary stays |
| `Commit.RemoveDocument` | src/document_store.cpp:227-253 | the same for removal |
| `Commit.CrashLeavesOldOrNew` | src/document_store.cpp:139-204 | from a durable document, a crash at any moment leaves it or the new one |
| `Commit.TemporaryFile.WriteAll` | src/store.cpp:63-77 | the older write loop, which fails exactly at a failed write and tries again when nothing was written |
| `Commit.TemporaryFile.FlushAndClose` | src/store.cpp:79-91 | success means the contents are synced |
| `Commit.WriteAtomically` | src/store.cpp:178-231 | just as atomic, but success only adds the new bytes to what a crash may leave |
| `Commit.OldDocumentMayReturn` | src/store.cpp:222-230 | after the older store's success the new document is durable exactly when a crash before the call could leave nothing else |
| `Commit.WriteThatACrashUndoes` | src/store.cpp:178-231 | so on a durable document with other bytes a call without faults succeeds, and a crash may bring the old document back |
| `Store.UpdateDocument` | src/document_store.cpp:267-339 | one call under any faults and crashes: safe throughout; without faults it gives the serial answer and leaves the serial document; when that is the document there was, the directory stays exactly as it is, faults or not; a stored result is the serial answer, or that answer as a durability failure, and exactly a staging call that stored hands back the document it read |
| `ProtocolSafety.ActKeeps` | src/document_store.cpp:267-339 | every step of every process and of other programs keeps the protocol's invariant |
| `ProtocolSafety.CommitsReplaceWhatTheySaw` | src/document_store.cpp:181-192 | in every run, a rename or unlink replaces the revision the change was computed from, unless another program wrote after the final re-read |
| `ProtocolSafety.CommitsChangeBytes` | src/document_store.cpp:333-337 | in every run, what a rename leaves has other bytes than what its call read, and only a rollback to a missing document unlinks |
| `ProtocolChecks.CommitsAreChecked` | src/document_store.cpp:139-192 | in every run, at each rename or unlink the caller's path leads to the target, unless led elsewhere since the final re-read; a replaced document keeps its permissions, unless written since, and a new one is private |
| `ProtocolChecks.DecisionsAreChecked` | src/document_store.cpp:307-309 | in every run, a call that decides under its lock has a path that leads to its target, unless led elsewhere since it took the lock |
| `ProtocolSafety.FailureLeavesTarget` | src/document_store.cpp:267-339 | a call with any other status than success or durability failure has changed nothing |
| `ProtocolSafety.NoLostUpdate` | src/document.cpp:297-304 | in every run, an undisturbed save that changes a value had it as baseline, and leaves its pending value |
| `ProtocolSerial.RunsAreSerial` | src/document_store.cpp:267-339 | every run of cooperating processes equals the serial run of its critical sections in lock order, faults and deaths included |
| `ProtocolIntent.UnreadableIsLeft` | src/document_store.cpp:310-319 | a document that is too large or does not parse is refused with that code and left, whatever the request |
| `ProtocolIntent.EditIntended` | src/document_store.cpp:323-338 | the serial answer and document of a save or staging call, said of the patch alone: a failed patch is the answer, one with the bytes there were answers with what was read and leaves it, absence included, and any other leaves its bytes and answers under the caller's path |
| `ProtocolIntent.EmptyBatchChangesNothing` | src/document_store.cpp:333-337 | an empty batch neither creates nor changes a document |
| `ProtocolIntent.RollbackIntended` | src/document_store.cpp:208-225 | the same of a rollback: any but the staged document is left alone, an earlier one its schema refuses is refused, else exactly the earlier bytes, or no document, remain |
| `ProtocolResults.ResultsAreLogged` | src/document_store.cpp:267-339 | in every run, a call that has returned has its critical section in the log with just the result it returned, or had none, stored nothing and changed no document |
| `ProtocolResults.ResultsAreSerial` | src/document_store.cpp:267-339 | so in cooperating runs a call without a fault returns from its section its serial answer to what the sections before it left |
| `ProtocolSerial.SavesAreNotRefused` | src/document_store.cpp:302-313 | in such runs no save or staging call without a fault reports that the document changed |
| `ProtocolRollback.RollbackUndoesStaging` | src/document_store.cpp:208-225 | staging and a rollback with what it returned, under any schema, nobody in between: it succeeds exactly when that schema accepts the earlier document, or one without a path if there was none, and then leaves exactly the earlier document, byte for byte or missing; otherwise it is refused as invalid and the staged document stays |
| `ProtocolCreation.CreationStays` | src/document_store.cpp:208-225 | so a concrete staged new file, wherever it is, is left by its rollback when the schema looks at the path |
| `ProtocolRollback.RollbackLeavesPrevious` | src/document_store.cpp:208-253 | in every run, a rollback that writes or removes found the staged revision, unless disturbed, and leaves the earlier document |
| `ProtocolRollback.RollbackTargetAccepted` | src/document_store.cpp:257-266 | the target check accepts what staging returned |
| `ProtocolRollback.AloneIsSerial` | src/document_store.cpp:267-339 | any request alone and without faults returns within twelve steps with its serial answer and document |
| `ProtocolStaging.StagingReturnsWhatItReplaced` | include/holonight/config/document.h:87-92 | in every run, a finished staging call that changed a document has returned the very document it replaced, unless disturbed, and the one it left |
| `ProtocolStaging.RollbackRestoresWhatWasStagedOver` | src/document_store.cpp:371-385 | in every run, such a rollback that renames or unlinks leaves exactly what the staging call had replaced, and has replaced exactly what it had left, unless disturbed |
| `ProtocolStaging.StagingAndRollbackAlone` | src/document_store.cpp:257-339 | staging and then rolling back, each alone and without faults, on a target that links resolve to: the target check passes, and the rollback succeeds and leaves the document as before exactly when its schema accepts what it validates |
| `ProtocolAnswers.StoredRollbackRestores` | src/document_store.cpp:303-339 | in every run, a rollback with what a staging call returned that reports success, or a durability failure, has renamed or unlinked at the staging call's target and left exactly what that call had replaced, unless staging was disturbed |
| `ProtocolAnswers.StatusTells` | src/document_store.cpp:139-204 | in every run, success means that no system call of the returning step failed, and a durability failure that the document was changed and then a sync failed |
| `ProtocolAnswers.RollbacksGoWhereRecorded` | src/document_store.cpp:257-280 | in every run, a rollback only changes the document at the normal form of its recorded path, and none without one |
| `ProtocolValues.SavesChangeOnlyTheirKeys` | src/document_store.cpp:320-338 | in every run in the fragment, an undisturbed save changes only its keys, to exactly what was requested |
| `Appearance.OverlayKey` | src/appearance_document.cpp:29-57 | one incoming key is taken, kept out with a warning, or kept out with an error |
| `Appearance.Overlay` | src/appearance_document.cpp:29-57 | the recursive overlay loop, whatever order it visits keys in |
| `AppearanceMeaning.DocumentErrors` | src/appearance_document.cpp:22-57 | the overlay reports an error exactly when a known table is no table or a known field ill typed |
| `AppearanceMeaning.OverlaidField` | src/appearance_document.cpp:29-57 | each field of the overlay is the incoming one if known and well typed, else the default |
| `AppearanceDecoding.DecodesExactly` | src/appearance_document.cpp:60-101 | a version 1 document decodes exactly when it has only known tables and keys, every field, and values that stand for accepted ones; a version 2 document when its known tables are tables and the known fields it has stand for accepted values |
| `AppearanceDecoding.DecodedValues` | src/codec.cpp:53-87 | in both versions a decoded field is what the document's node stands for: an integer or float in a number field for that number, an integer or text for itself, a trimmed text for the one middle part between white space; a missing field has its default, and nothing unknown is decoded |
| `AppearanceDecoding.WarningsExactly` | src/appearance_document.cpp:29-57 | one warning for each unknown key of the root and of known tables, and no other; none in version 1 |
| `AppearanceMeaning.UpgradeKeepsMeaning` | src/appearance_document.cpp:60-101 | changing only the version of a valid version 1 document keeps the appearance, without warnings |
| `AppearanceMeaning.RemovalIsLocal` | src/appearance_document.cpp:60-101 | removing a field of a valid version 2 document changes only that field, to its default |
| `AppearanceFormat.AppearanceIsWellFormed` | src/appearance.cpp:105-155 | the appearance fields, defaults and ranges satisfy what those results assume |
| `AppearanceLines.DocumentGather` | src/codec.cpp:299-328 | every line that is written is read as the header or member it stands for, or not at all if quoting left a control character raw in it; no string breaks the line structure |
| `AppearanceLines.TablesStandApart` | src/codec.cpp:299-328 | a written document starts with its version line, and has an empty line before every table header and nowhere else |
| `AppearanceRoundTrip.SerializeRoundTrip` | src/codec.cpp:222-330 | for every format, layout and set of doubles that are read back as printed, the text that is written parses to the normalized appearance exactly when it is not too long and quoting left no raw control character in it, and otherwise is refused |
| `AppearanceLayout.OrderLaysOut` | src/codec.cpp:299-328 | the order in which an appearance is written has every member once |
| `AppearanceLayout.AppearanceRoundTrips` | src/codec.cpp:222-330 | a written appearance is never too long, so it parses to the normalized appearance exactly when quoting left no raw control character in it |
| `AppearanceLayout.SampleRoundTrips` | src/codec.cpp:222-330 | a concrete printer and appearance meet everything the round trip asks for, and that appearance is read back |
| `AppearanceLayout.AppearanceChecksText` | src/appearance.cpp:79-101 | validation accepts only valid UTF-8 and finite numbers |
| `AppearanceRuns.VersionNeverConflicts` | src/appearance_document.cpp:152-184 | in every run of appearance saves and staging calls no call conflicts on the version, although it was read before the lock |
| `AppearanceRuns.UpgradesConverge` | src/appearance_document.cpp:178-182 | every document such a run has changed has version 2 |
| `AppearanceRuns.VersionNeverDecreases` | src/appearance_document.cpp:178-182 | and versions on disk never decrease |
| `AppearanceRuns.OtherVersionsAreKept` | src/appearance_document.cpp:79-83 | a document of another version, or that cannot be read, is never changed in such a run |

## Left out

- The TOML library itself: parsing, formatting of values and permissive conversions are a deterministic parameter; the fragment has comments, blank lines, headers and single-line boolean, integer and string assignments, does not check that the document is UTF-8, and has no floats, dates, arrays, dotted keys, inline tables or multi-line values.
- Numbers: doubles compare as C++ doubles do, but their text is an opaque invertible number token and integers convert to floats without rounding.
- The library sort: `Patch.PatchPlan.SortDescending` stands for it, and the splice result is proved for every order of ties.
- PatchProperties.PatchIgnoresBatchOrder: byte equality is claimed only without new keys, because insertions at one point are joined in table order and, within a table, in batch order.
- Commit.ReplaceDocument: other programs do not act during the call there (in `Protocol` they do), so the metadata check between its two `stat` calls always passes and what the second resolution finds is an argument; device numbers are not modelled.
- Commit.RemoveDocument: as for replacement, no other program acts between its check and the unlink.
- Commit.WriteAtomically: takes the bytes; refusing to serialize and creating the directory come before it.
- Store.UpdateDocument: one call at a time on links that stay as they are; interleavings, link changes and deaths are in `Protocol`.
- ProtocolRollback.RollbackUndoesStaging: two serial steps without the target check; `ProtocolStaging.StagingAndRollbackAlone` adds it, and `ProtocolAnswers` the runs.
- ProtocolSerial.SavesAreNotRefused: an I/O fault at the final re-read or re-resolution is reported as a change too, so calls with a fault are excluded.
- Links in runs: a path leads to its target by a map that other programs may change; each walk sees one file system.
- Lock files: removing or replacing the lock file, and locks on other descriptors, are not modelled.
- AppearanceDecoding.DecodesExactly: works on trees, so the size limit on the re-printed overlay is not modelled; field types are strict where the library's typed reads may convert.
- Appearance structs: the members are a table of fields, so `parse`, `parseTypography`, `parseShape`, `normalized` and `validate` are functions over that table instead of one statement per member.
- AppearanceRoundTrip.SerializeRoundTrip: the reader knows the fragment's lines and number tokens, not all of TOML; on the finitely many doubles, printing and reading are assumed to be inverse, and printing to give a number text (of at most 32 bytes where sizes matter).
- Diagnostics: codes and severities only, without wording, paths and positions; of permissions only the mode.
- Path selection from the environment, the loading loops of `load` and `readDocument`, shape style names as an enumeration, and test support.
