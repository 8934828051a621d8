# Verified models of Shatter's protocols, parsers and decision procedures

Shatter is a concolic testing tool. Around its engine the repository holds a set of small systems that are relied
on to be right in every run: extractors that publish embedded frontends into a shared cache, a gate-receipt pipeline
that decides whether a push may reuse earlier evidence, text rewriters with a separate checker, two hand-written
parsers, a bounded event log, release retention, a snapshot cache, and a few scanners. This project models them in
Dafny and proves what they are for. `dafny verify dfyconfig.toml` checks everything.

| file | models |
|---|---|
| `GoFrontend.dfy`, `GoOutcome.dfy`, `Names.dfy` | publication of the Go frontend by any number of threads, processes and CLI versions, and what its callers are told |
| `BundleCache.dfy`, `BundleRace.dfy`, `BundleSolo.dfy` | the TypeScript bundle and its fixed-name worker, one caller at a time and interleaved |
| `Snapshots.dfy` | the locked examples checkout and its commit-named snapshots, with crashes |
| `EventLog.dfy` | the locked append log with retention |
| `Json.dfy`, `Timestamps.dfy`, `Receipt.dfy`, `ReceiptCheck.dfy`, `ReceiptWrite.dfy` | gate receipts: shape, validation, writing |
| `ShadowCheck.dfy`, `Selecting.dfy`, `ShadowThreshold.dfy` | grading the validator's verdict, selecting evidence from the log, and the threshold |
| `ManagedBlock.dfy`, `Coverage.dfy`, `GitignoreSync.dfy` | the managed block in `.gitignore` and the coverage checker |
| `RegistryParser.dfy`, `RegistryLayout.dfy`, `RegistryText.dfy` | the registry loader, a layout it inverts, and its text |
| `Fences.dfy`, `FencedText.dfy` | the fenced-block extractor of the documentation check, on lines and on what is written in them |
| `Retention.dfy` | deletion candidates among continuous releases |
| `SourceTree.dfy`, `Utf8.dfy` | the source-tree walk, the lossy conversion of names and the bytes that are hashed |
| `Gauntlet.dfy` | the scanner of gauntlet output |
| `ArrayMutation.dfy` | array mutation and what it can reach |
| `Text.dfy`, `Sorting.dfy` | shared facts about strings and stable sorting |

Conventions. SHA-256 is an injective function, canonical JSON a printer with a parser that inverts it, and regular
expressions are functions of a line; each is a parameter. Random draws, directory listing order, scheduling, faults
and crashes are free choices. Where the code is a loop over variables the model is a method proved against a
specification function or property; where it is a protocol the model is a state machine over its system calls.

## Findings

Some promises hold only under a condition. In each case the code is modelled as it is, the condition is proved exact,
and a lemma gives an input that fails.

- Rewriting the managed block forgets the earlier write exactly when the markers are absent or in order, and exactly
  when no entry of the earlier write holds the closing marker.
- A generated path is recognised by the coverage checker exactly when the lines it is written as cover it, which for
  a path without a line break is exactly that it is `Certifiable`: a leading blank, `#` or `!` is enough to lose it,
  and a line break between two names loses it too.
- A receipt built from accepted results validates exactly when its timestamps are also ordered as text and the
  requirements are met; a timestamp with non-ASCII digits is accepted for writing and rejected for ever after.
- The bundle hash covers the concatenation of two files, so moving the boundary between them is not seen.
- A stale worker is repaired by later extractions exactly when it is not `Lost`: a fault after the bundle is published
  loses it for good, and a rename that fails onto the stale file does so while reporting success.
- On an empty cache, callers of two releases always leave a bundle exactly when the releases share a name, and always the pair of one of
  them exactly when their split points agree too; otherwise they can leave no bundle, or mix the two.
- Retention keeps the event log within its bound exactly when every line in it is valid; a torn append breaks it
  exactly when the part that was written is not itself a valid line.
- Retention of releases can be interrupted and resumed exactly for `keep_recent >= 0`, or `keep_recent == -1` with at
  least one monthly release kept.
- A scalar in a block list is read as itself exactly when its text has no colon, quoted or not. A comment behind a
  line is recognised only where every quote in the line is closed; an apostrophe in plain text opens one.
- An interruption of the snapshot protocol can make later calls return an incomplete snapshot exactly when it breaks
  off a removal that has taken something from an entry, in its worktree or inside its `.git`, and not all of `.git`.
  Losing the marker file alone does no harm, because the next call writes it again.
- A full selection of evidence survives until a later reading exactly when all its lines are still in the log and
  still on the main branch and every newly eligible line comes too late. Log retention drops the oldest lines, which
  are the selected ones; late landings and rewritten history change it as well.
- The source digest tells trees apart exactly when the lossy conversion of names does. File names that are not text
  are never hashed, directory names may be: the same Go file in directories named by two stray bytes collides.

## Model

| member | source | states |
|---|---|---|
| `GoFrontend.NextKeepsInv` | shatter-cli/src/embedded_go_frontend.rs:50-122 | every system call of every thread, process start, exit or kill, and every failed call keeps the publication invariant |
| `GoFrontend.SlotsAlwaysSound` | shatter-cli/src/embedded_go_frontend.rs:50-122 | in every state of every run each hash-named slot holds the complete binary of its hash, is executable, and no open writer points at its inode |
| `GoFrontend.PublishedForever` | shatter-cli/src/embedded_go_frontend.rs:50-107 | a slot once published is never removed or changed, whatever later callers of any version do |
| `GoFrontend.SuccessIsForever` | shatter-cli/src/embedded_go_frontend.rs:50-107 | a successful return names the caller's own slot, published then and in every later state |
| `GoOutcome.VerdictIs` | shatter-cli/src/embedded_go_frontend.rs:50-107 | in every run, a call that has returned gave an error if one of its steps spoiled it (a failed call before the rename, or a lost rename without a slot) and otherwise its own slot |
| `GoOutcome.UnfailedCallSucceeds` | shatter-cli/src/embedded_go_frontend.rs:50-107 | a call in which no system call failed returned success with its slot, which is published |
| `GoOutcome.LostRenameVerdict` | shatter-cli/src/embedded_go_frontend.rs:94-106 | after a failed rename the call succeeds if and only if the slot was in the directory when it looked |
| `GoOutcome.CanSucceed` | shatter-cli/src/embedded_go_frontend.rs:50-107 | from every state of every run a call that is not lost reaches success by at most seven steps of its own, whatever others do or left behind |
| `GoOutcome.SucceedsAloneIff` | shatter-cli/src/embedded_go_frontend.rs:50-107 | and the calls that can are exactly those with no error in hand and no lost rename without a slot |
| `GoOutcome.WorksOnlyIfMissing` | shatter-cli/src/embedded_go_frontend.rs:53-55 | a call that finds its slot returns at once and stages nothing |
| `GoOutcome.ReturnLeavesStagingIff` | shatter-cli/src/embedded_go_frontend.rs:79-107 | a return leaves the staging file behind exactly after a failed write or a failed removal |
| `GoFrontend.TmpsDiffer` | shatter-cli/src/embedded_go_frontend.rs:112-122 | two live threads never stage under the same name, across processes and builds |
| `GoFrontend.TmpIsNoSlot` | shatter-cli/src/embedded_go_frontend.rs:112-122 | a staging name is never the name of a slot |
| `Names.StagingIsInjective` | shatter-cli/src/embedded_go_frontend.rs:112-122 | the staging name determines the destination, the process id and the counter value |
| `BundleCache.Cache.ExtractTo` | shatter-cli/src/embedded_frontend.rs:40-86 | the cache, the counter and the verdict after an extraction with any fault are those of `Extract` |
| `BundleCache.Cache.CleanupOldBundles` | shatter-cli/src/embedded_frontend.rs:138-156 | in any listing order, exactly the other removable bundles are gone |
| `BundleCache.Cache.WriteAtomicFile` | shatter-cli/src/embedded_frontend.rs:88-119 | staging, rename, a lost rename and failed writes leave the files that `Store` gives |
| `BundleCache.CacheHoldsOnePair` | shatter-cli/src/embedded_frontend.rs:40-86 | after any sequence of undisturbed extractions from an empty cache there is exactly one bundle, named for the last caller, and the worker beside it, both of one release |
| `BundleCache.LastCallerFindsItsPairIff` | shatter-cli/build.rs:143-149 | that pair is the last caller's exactly when the release left in the cache splits the hashed bytes at the same point |
| `BundleCache.MovedSplitIsMissed` | shatter-cli/build.rs:143-149 | two releases with equal concatenation and different split: the second caller is served the first one's files |
| `BundleCache.SameNameSamePairIff` | shatter-cli/build.rs:143-149 | of two releases with the same hash, equality is decided by the length of the bundle |
| `BundleCache.WorkerMatchesIff` | shatter-cli/src/embedded_frontend.rs:54-110 | from any cache and with any faults, an extraction leaves the caller's worker exactly when it was there already or this extraction had a reason to write it and no fault |
| `BundleCache.SuccessWithStaleWorkerIff` | shatter-cli/src/embedded_frontend.rs:88-110 | an extraction reports success over a stale worker exactly when the bundle was there already, or the worker's rename failed onto the stale file |
| `BundleCache.RenameFailureIsSilent` | shatter-cli/src/embedded_frontend.rs:98-104 | the input: a stale worker, a fresh bundle and a failed rename give success and a stale worker |
| `BundleCache.StaleWorkerStays` | shatter-cli/src/embedded_frontend.rs:54-110 | once a worker is lost, no later extraction of the release, whatever happens in it, changes anything |
| `BundleCache.RepairableIff` | shatter-cli/src/embedded_frontend.rs:54-110 | after an extraction with any faults, some later extractions of the release put the worker right exactly when it is not `Lost`, a condition on the files and faults before |
| `BundleCache.CleanupKeeps` | shatter-cli/src/embedded_frontend.rs:138-156 | cleanup never deletes a staging file or the worker, and leaves no other bundle that can be removed |
| `BundleCache.SucceedsIff` | shatter-cli/src/embedded_frontend.rs:40-119 | an extraction reports success exactly when nothing is to be done or each file to be written gets there, a lost rename onto a worker included |
| `BundleCache.LeavesStagingIff` | shatter-cli/src/embedded_frontend.rs:88-119 | a staging file stays exactly after a torn write, or after a failed rename that found no file or cannot be undone |
| `BundleCache.CounterMoves` | shatter-cli/src/embedded_frontend.rs:88-119 | the next staging name of a process differs from the last, whatever it is for |
| `BundleRace.StepKeepsInv` | shatter-cli/src/embedded_frontend.rs:40-156 | every interleaved step of callers of releases that share a name keeps: once the bundle is there, the pair is complete or some caller still owes the worker or the cleanup |
| `BundleRace.CallersOfOneNamePair` | shatter-cli/src/embedded_frontend.rs:40-156 | any number of callers of releases that share a name, in any interleaving: whenever all have finished there is exactly one bundle, with a caller's contents, and a caller's worker |
| `BundleRace.CallersOfOneReleasePair` | shatter-cli/src/embedded_frontend.rs:40-156 | with callers of one release, whenever all have finished, the cache holds exactly that release's pair |
| `BundleRace.RacingReleasesLoseBoth` | shatter-cli/src/embedded_frontend.rs:138-156 | for any two releases with different hashes there is a run from an empty cache in which both return success and no bundle is left |
| `BundleRace.RacingReleasesMix` | shatter-cli/src/embedded_frontend.rs:40-110 | for any two releases of one name there is a run that leaves the bundle of one beside the worker of the other |
| `BundleRace.LeavesBundleIff` | shatter-cli/src/embedded_frontend.rs:40-156 | every finished run of callers of two releases on an empty cache leaves a bundle if and only if the releases share a name |
| `BundleRace.LeavesPairIff` | shatter-cli/src/embedded_frontend.rs:40-156 | and it leaves the pair of one of them if and only if their split points agree as well |
| `BundleSolo.SoloIsExtract` | shatter-cli/src/embedded_frontend.rs:40-156 | the interleaved steps refine the extraction: a caller alone, on any files and with removals in any order, leaves exactly the files and the counter of one extraction |
| `Snapshots.StepKeepsInv` | scripts/examples_checkout.py:99-278 | every step of every holder keeps published snapshots whole, an interrupted removal included where no entry is half removed |
| `Snapshots.ReturnedIsComplete` | scripts/examples_checkout.py:188-278 | in every run in which no removal is broken off half way through an entry, with processes killed anywhere else, every returned path names a clone with the whole worktree of the commit in its name and a repository that serves it |
| `Snapshots.SnapshotIsStable` | scripts/examples_checkout.py:188-233 | from the moment it is published, nothing but a cache removal changes what is under a commit's name, the marker file apart |
| `Snapshots.InterruptionHarmsIff` | scripts/examples_checkout.py:99-278 | wherever the holder is killed or fails, later calls can return an incomplete snapshot if and only if it was removing the cache and some entry still had a `.git` and had lost something from its worktree or its repository |
| `Snapshots.RemovalCanGut` | scripts/examples_checkout.py:177-243 | every such state of an entry is reached from an empty cache, and later calls can return it |
| `Snapshots.OneWorktreeFileGone` | scripts/examples_checkout.py:177-243 | one input: a removal that took one file of the worktree |
| `Snapshots.OneRepositoryFileGone` | scripts/examples_checkout.py:177-243 | another: the worktree is whole, and one file is gone from `.git` without which it does not serve the commit |
| `Snapshots.UpdatedCallIsFresh` | scripts/examples_checkout.py:126-278 | in every run, a call that may update and finds no recently refreshed checkout returns a commit that the remote had while the call ran |
| `Snapshots.OtherCallKeepsHead` | scripts/examples_checkout.py:126-278 | any other call works on the commit that the checkout already had |
| `Snapshots.CallCanReturn` | scripts/examples_checkout.py:99-278 | whatever was left behind, a call with a free lock can return the remote's commit if the checkout is missing or has a `.git` and so has the slot |
| `Snapshots.BrokenStopsCall` | scripts/examples_checkout.py:119-205 | a checkout or a slot that has lost its `.git` lets no step of the call succeed |
| `Snapshots.FailCleansUp` | scripts/examples_checkout.py:229-231 | a reported error removes the clone being made, as far as it can be removed, and no other entry |
| `EventLog.AppendAddsOneLine` | scripts/gate-event-log.py:219-235 | whatever bytes the file held, splitting it after an append gives the old lines and the new one |
| `EventLog.AppendOnLines` | scripts/gate-event-log.py:158-246 | on the lines of the file and with the limits written out: a line over one MiB is refused, beyond 10000 lines the newest 8000 stay or an invalid line gives an I/O error, and otherwise one line is added |
| `EventLog.TornAppend` | scripts/gate-event-log.py:219-229 | a record cut short at any byte damages no earlier line and leaves at most one partial line |
| `EventLog.LogFile.PerformRetention` | scripts/gate-event-log.py:158-178 | the file becomes its newest 8000 lines if all lines are valid and is untouched otherwise |
| `EventLog.LogFile.AppendLine` | scripts/gate-event-log.py:181-246 | file and exit code after an append are those of `Append` |
| `EventLog.LogIsNewestLines` | scripts/gate-event-log.py:158-246 | after any history from an empty log the file is exactly the last `Size(n)` lines, `Size` in closed form |
| `EventLog.LogBounds` | scripts/gate-event-log.py:158-246 | the log is a suffix of the history, at most 10000 lines, at least the last 8000 of it, newest last |
| `EventLog.LogBoundsInEveryRun` | scripts/gate-event-log.py:113-246 | the same in every state with a free lock of every interleaving of appenders, including those that give up waiting |
| `EventLog.InvalidLineStopsRetention` | scripts/gate-event-log.py:158-246 | with one invalid line in the file, every line ever appended stays in it |
| `EventLog.RetentionWorksIff` | scripts/gate-event-log.py:158-246 | every non-empty history of accepted lines leaves at most 10000 lines if and only if all lines the file started with are valid |
| `EventLog.TornAppendStopsRetentionIff` | scripts/gate-event-log.py:158-246 | a record cut short leaves retention working if and only if the cut comes before its line or the part is itself a valid line |
| `Timestamps.AsciiOrderIsChronological` | scripts/gate-receipt.py:249-255 | on valid fixed-width ASCII timestamps, text order is chronological order, both ways |
| `Timestamps.OtherDigitsBreakTheOrder` | scripts/gate-receipt.py:249-255 | two valid timestamps of the same instant that are out of order as text |
| `Timestamps.AsciiValidIff` | scripts/gate-receipt.py:249-255 | a well-shaped ASCII timestamp is valid exactly when its moment is a real date and time |
| `Timestamps.StampIsValid` | scripts/gate-receipt.py:249-255 | every real moment has a valid timestamp, which is read as that moment |
| `Receipt.InOrderIsSorted` | scripts/gate-receipt.py:474-521 | a list passes the order test of the shape check exactly when it equals its sorted form |
| `Receipt.ShapeIsEncoding` | scripts/gate-receipt.py:443-533 | whatever passes the shape check is the encoding of a well-formed receipt |
| `Receipt.EncodingHasShape` | scripts/gate-receipt.py:443-533 | the encoding of every well-formed receipt passes the shape check |
| `Receipt.DecodeInvertsEncode` | scripts/gate-receipt.py:320-533 | reading an encoded receipt gives the receipt |
| `ReceiptCheck.CollectBindings` | scripts/gate-receipt.py:184-220 | succeeds exactly when every file to be bound is a blob, and binds exactly the two required scripts and every blob whose path has the form `*Taskfile*.yml`, in order, with their digests, and the lock files |
| `ReceiptCheck.MatchesIff` | scripts/gate-receipt.py:201 | searching for the stem and comparing the end decides whether a path splits into anything, the stem, anything and the suffix |
| `ReceiptCheck.CodeSetIs` | scripts/gate-receipt.py:196-203 | the paths collected are the two scripts and the blobs of that form, anywhere in the tree |
| `ReceiptCheck.RequirementsReadBack` | scripts/gate-receipt.py:536-562 | a document that encodes acceptable requirements is read as them |
| `ReceiptCheck.ReadRequirementsIff` | scripts/gate-receipt.py:536-562 | and a document is accepted exactly if it encodes requirements that are not empty, have distinct names and commands, under a schema number equal to one |
| `ReceiptCheck.FlaggedExact` | scripts/gate-receipt.py:667-690 | on a receipt no optional-field guard skips a comparison: each reason is flagged exactly when the field differs |
| `ReceiptCheck.GatesExact` | scripts/gate-receipt.py:692-720 | no gate reason is given exactly when names are unique, all exit codes are 0 and every requirement has a result with its argv |
| `ReceiptCheck.NothingWrongIffProves` | scripts/gate-receipt.py:660-724 | no reason of any kind is found exactly when the receipt proves the query |
| `ReceiptCheck.GateReasonsExact` | scripts/gate-receipt.py:692-720 | on encoded results each of the four gate reasons is given exactly for its fault: a repeated name, a non-zero exit, a requirement without result, a result with another argv |
| `ReceiptCheck.ReportedExact` | scripts/gate-receipt.py:631-724 | on a genuine receipt every single reason is reported exactly when what it names is wrong |
| `ReceiptCheck.NothingReportedIff` | scripts/gate-receipt.py:631-724 | nothing is reported exactly when permissions are in order and some receipt in the file proves the query |
| `ReceiptCheck.JudgeReceipt` | scripts/gate-receipt.py:641-724 | the verdict of a comparison lists exactly the reported reasons, in the fixed order |
| `ReceiptCheck.ValidateReceipt` | scripts/gate-receipt.py:587-724 | valid if and only if the file is private and holds a genuine receipt that proves the query, and if and only if the reasons are empty; which inputs end in an I/O exit, in which one-reason verdict, or in a comparison with exact reasons |
| `ReceiptWrite.LoadGateResults` | scripts/gate-receipt.py:258-293 | accepts exactly documents that each load and whose gates are distinct; the results are all of them, sorted |
| `ReceiptWrite.LoadsIff` | scripts/gate-receipt.py:258-285 | a result document is accepted exactly if it encodes a passing result with valid timestamps, the end not before the start |
| `ReceiptWrite.WriteReceipt` | scripts/gate-receipt.py:258-423 | a receipt is written if and only if the repository, both trees, all documents with distinct gates, the bindings and the tools are there and the canonical forms exist; the bytes are those of the one receipt built from the documents |
| `ReceiptWrite.BuiltIsWellFormed` | scripts/gate-receipt.py:320-533 | a built receipt whose timestamps are in text order meets the whole shape check |
| `ReceiptWrite.WriteThenValidate` | scripts/gate-receipt.py:258-724 | a built receipt is accepted under the same trees, tier and tools exactly when its timestamps are in text order and it satisfies the requirements |
| `ReceiptWrite.WrittenBytesValidateIff` | scripts/gate-receipt.py:258-724 | the bytes written for documents are accepted under the same trees, tier and tools exactly when the documents' timestamps are in text order and they satisfy the requirements |
| `ReceiptWrite.AsciiIsInTextOrder` | scripts/gate-receipt.py:249-285 | for accepted results with ASCII timestamps the first of these conditions always holds |
| `ReceiptWrite.AcceptedButNotInTextOrder` | scripts/gate-receipt.py:249-285 | a result that is accepted for writing and fails it |
| `ShadowCheck.BuildEvent` | scripts/receipt-shadow-check.py:262-338 | the event of a push: reuse exactly when one tree is pushed, a task is required and the validator accepts; otherwise the causes that what the validator finds gives, the trees and the diff class |
| `ShadowCheck.NonDeletionOne` | scripts/receipt-shadow-check.py:97-98 | an update counts exactly when its local object is not forty zeros |
| `ShadowCheck.NonDeletionsAppend` | scripts/receipt-shadow-check.py:97-98 | the updates that count are taken one by one and stay in order |
| `ShadowThreshold.EligibleIff` | scripts/receipt-shadow-threshold-check.py:109-163 | an event counts exactly if it changed product files and its only update that is no deletion went to `main` or `master` and is by now on the branch of that name at the origin |
| `ShadowThreshold.SelectFirstDistinct` | scripts/receipt-shadow-threshold-check.py:166-181 | the loop selects the first events per tree in time order, up to the limit |
| `Selecting.TakenIff` | scripts/receipt-shadow-threshold-check.py:166-181 | a sequence is what the loop takes from an ordered list if and only if it is an ordered choice of distinct trees and every other event comes too late |
| `ShadowThreshold.SelectionIsChoice` | scripts/receipt-shadow-threshold-check.py:166-181 | the selection holds events with distinct named trees in time order; every other event has its tree represented no later, or comes after all of a full selection |
| `ShadowThreshold.LaterEventsExtend` | scripts/receipt-shadow-threshold-check.py:166-181 | events no earlier than all others extend the selection, and leave a full one as it is |
| `ShadowThreshold.EvaluateThreshold` | scripts/receipt-shadow-threshold-check.py:209-246 | passes exactly with enough records and none that is a false accept, an unexplained unexpected miss or a bare expected miss |
| `ShadowThreshold.CheckThreshold` | scripts/receipt-shadow-threshold-check.py:109-246 | the same for the selection from the eligible events of a log |
| `ShadowThreshold.ThresholdIsEvidence` | scripts/receipt-shadow-threshold-check.py:166-246 | when the log holds the events of pushes, the threshold passes exactly with enough selected events and none of a push whose receipt the validator accepts while its gate failed; exactly those are graded false accepts, and none is an unexpected miss or an expected miss without reasons |
| `ShadowThreshold.SelectionFromLog` | scripts/receipt-shadow-threshold-check.py:78-181 | the selection read from the event log after `n` appends is that of the lines which retention has left |
| `ShadowThreshold.SelectionSurvivesIff` | scripts/receipt-shadow-threshold-check.py:141-181 | between two readings, with any lines appended, dropped, landed or rewritten away, a full selection is unchanged if and only if all its lines are still there and eligible and every newly eligible line comes too late |
| `ShadowThreshold.SelectionSurvivesInLogIff` | scripts/receipt-shadow-threshold-check.py:78-181 | the same for the event log after two numbers of appends |
| `ShadowThreshold.RetentionChangesSelection` | scripts/receipt-shadow-threshold-check.py:78-181 | any selected line that retention drops changes the selection |
| `ShadowThreshold.RetentionDropsEvidence` | scripts/receipt-shadow-threshold-check.py:78-181 | the input: the 10001st line drops the selected event and the next tree takes its place |
| `ShadowThreshold.LaterPushesChangeNothing` | scripts/receipt-shadow-threshold-check.py:141-181 | a full selection stays when nothing selected is dropped or rewritten away, no earlier event lands and later pushes carry no earlier time |
| `ShadowThreshold.LandingChangesSelection` | scripts/receipt-shadow-threshold-check.py:141-181 | the input for ancestry: a commit that lands later takes the place of a selected one, and one rewritten away gives it up |
| `ManagedBlock.BuildBlock` | shatter-cli/src/generated_paths.rs:309-319 | the growing string ends as the rendered block |
| `ManagedBlock.TextOutsideIsKept` | shatter-cli/src/generated_paths.rs:361-391 | with both markers, in any order, the bytes before the opening marker and after the closing marker's line are unchanged; without both, the whole text is a prefix of the result |
| `ManagedBlock.LastWriteWinsIffWellPlaced` | shatter-cli/src/generated_paths.rs:361-391 | for entries without the closing marker, writing twice equals writing once exactly when the markers are absent or in order |
| `ManagedBlock.LastWriteWinsIffEndFree` | shatter-cli/src/generated_paths.rs:309-391 | in such a text, exactly when no entry of the first write holds the closing marker |
| `ManagedBlock.EndInEntryGrows` | shatter-cli/src/generated_paths.rs:309-391 | an entry with the closing marker makes the next write leave text behind |
| `ManagedBlock.OnlyBeginShrinks` | shatter-cli/src/generated_paths.rs:361-391 | an opening marker alone makes the second write drop text |
| `ManagedBlock.OnlyEndGrows` | shatter-cli/src/generated_paths.rs:361-391 | a closing marker alone makes the second write duplicate text |
| `ManagedBlock.EndFirstGrows` | shatter-cli/src/generated_paths.rs:361-391 | so does a closing marker before the opening one |
| `ManagedBlock.AppendedBehindBlankLine` | shatter-cli/src/generated_paths.rs:361-391 | a block is appended behind one blank line, whether or not the text ends with a line break |
| `Coverage.OwnLineCovers` | shatter-cli/src/generated_paths.rs:252-277 | the line of an entry covers the entry exactly when the entry is certifiable |
| `Coverage.UnanchoredIff` | shatter-cli/src/generated_paths.rs:252-277 | a pattern without a slash matches a whole component at any depth and nothing else |
| `Coverage.AnchoredIff` | shatter-cli/src/generated_paths.rs:252-277 | a pattern with a slash matches exactly the paths whose first components are its own |
| `Coverage.SelfCoveringIff` | shatter-cli/src/generated_paths.rs:252-319 | the lines that an entry without a line break is written as cover it exactly when it is certifiable |
| `Coverage.EntryHasItsLine` | shatter-cli/src/generated_paths.rs:309-391 | after a write into any text, every entry stands on a line of its own |
| `Coverage.WrittenEntryIsCovered` | shatter-cli/src/generated_paths.rs:252-391 | after a write into any text, even with misplaced markers, the checker accepts every entry whose own lines cover it |
| `Coverage.FreshBlockCoversIff` | shatter-cli/src/generated_paths.rs:252-391 | in a fresh file the checker accepts any entry exactly when the lines it is written as cover it; an entry without a line break exactly when it is certifiable |
| `Coverage.LineBreakLosesEntry` | shatter-cli/src/generated_paths.rs:252-319 | two plain names with a line break between them: certifiable by their ends, and covered by neither line |
| `Coverage.NothingUnignoredAfterSync` | shatter-cli/src/generated_paths.rs:134-277 | after a write no entry whose own lines cover it is reported, whatever other files are read |
| `GitignoreSync.Gitignore.Sync` | shatter-cli/src/generated_paths.rs:327-357 | the file and the outcome after a sync, for a missing, current or stale file |
| `GitignoreSync.OutcomeIs` | shatter-cli/src/generated_paths.rs:327-357 | a sync reports a current file exactly when it leaves the file as it was, and a created one exactly when there was none |
| `GitignoreSync.LastSyncWins` | shatter-cli/src/generated_paths.rs:327-357 | a later sync leaves the file it would have left without the earlier one, exactly when the file was missing or its markers absent or in order |
| `GitignoreSync.ResyncIsCurrentIff` | shatter-cli/src/generated_paths.rs:327-357 | syncing the same entries again reports a current file exactly under that condition |
| `GitignoreSync.ResyncGrowsWithoutOpeningMarker` | shatter-cli/src/generated_paths.rs:327-391 | a file with only a closing marker grows with every sync |
| `GitignoreSync.DirEntryCertifiableIff` | shatter-cli/src/generated_paths.rs:279-306 | a configured directory yields a certifiable entry exactly when its first character is no blank, `#` or `!` |
| `GitignoreSync.CollectGitignores` | shatter-cli/src/generated_paths.rs:179-229 | each file on the way to the root is read with the path from its directory down to the project |
| `GitignoreSync.AncestorFilesAre` | shatter-cli/src/generated_paths.rs:179-229 | read are exactly the files of the directories from the project up to the root, each with its way down |
| `GitignoreSync.PathSegments` | shatter-cli/src/generated_paths.rs:179-229 | the prefix of a file names the directories on the way down, one component each |
| `GitignoreSync.AncestorSeesFullPath` | shatter-cli/src/generated_paths.rs:252-277 | a file above the project covers an entry exactly as it covers the path from there |
| `RegistryLayout.SplitJoin` | scripts/validate-protocol-registry.py:267-288 | splitting joined flow parts at top-level commas gives the parts, quotes and brackets respected |
| `RegistryLayout.FlowReadBack` | scripts/validate-protocol-registry.py:238-311 | every flow value of the subset, nested to any depth, is parsed back from its text: truth values, both spellings of null, numbers, text in either quotes and plain words |
| `RegistryLayout.BlockReadBack` | scripts/validate-protocol-registry.py:162-227 | from any position, the layout of a block is read as its entries, block lists of values and of mappings with continuation lines included, and the parser stops at the first shallower line |
| `RegistryLayout.ElementsReadBack` | scripts/validate-protocol-registry.py:204-235 | the same for a block list, each element a value or a mapping merged from its first pair and the lines below it |
| `RegistryLayout.LoaderInvertsLayout` | scripts/validate-protocol-registry.py:101-311 | loading the layout of any document of the subset gives the document and consumes all its lines; the value of each scalar is told by its kind, and the subset has every form of line in protocol/registry.yaml |
| `RegistryLayout.AssignIsTheDocument` | scripts/validate-protocol-registry.py:162-201 | with distinct keys every key has its own entry's value |
| `RegistryLayout.AssignKeys` | scripts/validate-protocol-registry.py:162-201 | the keys loaded are exactly the document's keys |
| `RegistryLayout.ListedValueReadIff` | scripts/validate-protocol-registry.py:204-235 | any value in a block list is read as itself exactly when it does not look like a mapping: no colon, or a bracket in front |
| `RegistryLayout.StraysAreCollected` | scripts/validate-protocol-registry.py:178-182 | items that stand where keys are expected are collected, in order, under the key `__items__` |
| `RegistryLayout.StrayCrashesIff` | scripts/validate-protocol-registry.py:178-182 | such an item crashes the loader exactly when that key holds something other than a list |
| `RegistryLayout.DeeperLinesAreSkipped` | scripts/validate-protocol-registry.py:173-176 | lines deeper than a mapping, where no key is open, change nothing |
| `RegistryLayout.DeeperItemIsRead` | scripts/validate-protocol-registry.py:204-227 | a dash deeper than its list is one more item of it |
| `RegistryLayout.ListEndsWithoutDash` | scripts/validate-protocol-registry.py:204-213 | a line without a dash ends the list, however deep it is |
| `RegistryLayout.ScalarItemReadIff` | scripts/validate-protocol-registry.py:204-235 | a scalar in a block list is read as itself exactly when its text has no colon, even inside quotes |
| `RegistryText.StripTrailingComment` | scripts/validate-protocol-registry.py:149-159 | the loop with its two quote flags cuts at the first `#` outside quotes |
| `RegistryText.WrittenLinesAreRead` | scripts/validate-protocol-registry.py:134-159 | comments, blank lines, trailing blanks anywhere, and trailing comments wherever the quotes of the line are closed, do not change the logical lines |
| `RegistryText.TextLoadsAsDocument` | scripts/validate-protocol-registry.py:101-311 | any text whose lines write out a document, with comments and blank lines anywhere, loads as the document |
| `RegistryText.DocumentRoundTrip` | scripts/validate-protocol-registry.py:101-311 | the plain text of every document whose scalars hold no line break is split, stripped and loaded back as the document |
| `RegistryText.LoadRegistry` | scripts/validate-protocol-registry.py:101-117 | the loader on a text gives what the specification gives, or faults where it does; it ends on every text |
| `RegistryText.Cursor.ParseBlock` | scripts/validate-protocol-registry.py:120-201 | result and cursor position of the loop are those of `Block`; it ends on every input |
| `RegistryText.Cursor.ParseBlockList` | scripts/validate-protocol-registry.py:120-227 | the same for block lists |
| `RegistryText.SplitParts` | scripts/validate-protocol-registry.py:267-288 | the loop with depth and quote flags computes `SplitFlow` |
| `Fences.ParseRendered` | scripts/docs-smoke.py:203-257 | parsing a rendered document gives its languages, bodies, line numbers and directives, wherever it starts |
| `Fences.Decomposition` | scripts/docs-smoke.py:203-257 | every text is such a document, so nothing is left undescribed |
| `Fences.TextIsADocument` | scripts/docs-smoke.py:203-257 | so is every text, and no line of it holds a line break |
| `FencedText.ParseFencedBlocks` | scripts/docs-smoke.py:203-257 | however the lines of the text are written as prose, fenced blocks (blanks, three or more backticks, an info string; closed by at least as many) and perhaps an open one, there is one block for each fence, with its line number, the lowered first word of its info string, its body and the directive above it |
| `FencedText.TextIsWritten` | scripts/docs-smoke.py:203-257 | every text is written in this way |
| `FencedText.OpensIff` | scripts/docs-smoke.py:120 | a line opens a block exactly if it has three or more backticks behind blanks |
| `FencedText.ClosesIff` | scripts/docs-smoke.py:235-238 | a line closes a block exactly if it has enough backticks and nothing but blanks around them |
| `FencedText.DirectiveIs` | scripts/docs-smoke.py:162-200 | what a directive means, by its first word: a skip with its reason or without one, a forced kind, or an unknown verb |
| `Fences.OpeningLine` | scripts/docs-smoke.py:120 | an opening line built from indent, backticks and info string is matched with that length and info |
| `Fences.SkippedIff` | scripts/docs-smoke.py:162-231 | a block is skipped exactly when the nearest non-blank line above it is a skip directive |
| `Fences.SkipNeedsReason` | scripts/docs-smoke.py:162-200 | a skip has a non-blank reason or an error, never both; a forced kind excludes both; nothing is found exactly when there is no directive |
| `Fences.ContentDeterminesBody` | scripts/docs-smoke.py:243 | the joined content determines the body lines, but for no line and one empty line |
| `Retention.DeletionCandidates` | scripts/retention_continuous_releases.py:16-43 | the two passes propose what `Proposed` describes |
| `Retention.ProposedIff` | scripts/retention_continuous_releases.py:22-43 | proposed are exactly the prereleases with a `continuous-` tag that are not recent, protected or the newest of one of the first months |
| `Retention.SiftedIs` | scripts/retention_continuous_releases.py:22-29 | the rules work on the continuous releases, each as often as given, newest first, releases of one instant in their given order |
| `Retention.ProposedHasNewerSpared` | scripts/retention_continuous_releases.py:22-43 | for every proposed release at least `keep_recent` continuous releases that are no older are spared |
| `Retention.NewestAreSpared` | scripts/retention_continuous_releases.py:22-43 | a release with at most `keep_recent` continuous releases no older than it is never proposed |
| `Retention.MonthRepIsNewest` | scripts/retention_continuous_releases.py:34-41 | what the monthly rule spares is no older than any release of its month outside the window |
| `Retention.ProposedMonthIsCovered` | scripts/retention_continuous_releases.py:22-43 | for every proposed release, a spared release of its month is no older, or `keep_monthly` months each have a spared release that is no older |
| `Retention.WindowIsExact` | scripts/retention_continuous_releases.py:22-43 | for distinct tags and without the other rules the number of proposed releases is exactly what lies outside the window, negative windows included |
| `Retention.MonthlyKeepsReps` | scripts/retention_continuous_releases.py:34-41 | the monthly pass keeps the newest release of each of the first `keep_monthly` months |
| `Retention.MonthlyKeepsOnlyReps` | scripts/retention_continuous_releases.py:34-41 | and no other |
| `Retention.ResumesInWindow` | scripts/retention_continuous_releases.py:22-43 | after deleting any part of the proposal, re-running proposes exactly the rest |
| `Retention.CompletedRunProposesNothing` | scripts/retention_continuous_releases.py:22-43 | after deleting all of it, nothing |
| `Retention.ResumableIff` | scripts/retention_continuous_releases.py:22-43 | this holds for all releases and protected tags exactly for a non-negative window, or a window of -1 with a monthly quota |
| `SourceTree.HashInput` | shatter-cli/build.rs:74-87 | the buffer filled by the loop is the encoding of the converted names and the contents |
| `SourceTree.EncodeInjective` | shatter-cli/build.rs:74-87 | lists of files with NUL-free paths and 64-bit lengths have the same bytes only if they are equal |
| `SourceTree.CollectSourceTree` | shatter-cli/build.rs:40-66 | for any listing order, the files and directories returned are exactly those that can be reached, in path order, once each |
| `SourceTree.ListingIsUnique` | shatter-cli/build.rs:40-66 | such a list is determined by the tree alone |
| `SourceTree.SameBytesIff` | shatter-cli/build.rs:74-87 | two listings give the same bytes if and only if they agree position by position on converted names and contents |
| `SourceTree.DigestSeparatesIff` | shatter-cli/build.rs:74-87 | over any set of paths, equal bytes always mean equal sources if and only if the lossy conversion keeps those paths apart |
| `SourceTree.StrayNamesCollide` | shatter-cli/build.rs:13-87 | the input: the same Go file, which the filter admits, in directories named by two stray bytes; so over Go sources the digest does not tell all trees apart |
| `SourceTree.GoNameIff` | shatter-cli/build.rs:19-28 | hashed are exactly files with a well-formed name that is `go.mod` or `go.sum` or ends in `.go` and not in `_test.go` |
| `Utf8.LossyKeepsIff` | shatter-cli/build.rs:78 | the conversion leaves a name alone if and only if it is well-formed UTF-8 |
| `Utf8.CutShortIsReplaced` | shatter-cli/build.rs:78 | a sequence that is cut short becomes one replacement character |
| `SourceTree.DigestInputDeterminesSources` | shatter-cli/build.rs:40-87 | for trees with well-formed names, the same bytes exactly for the same source files with the same contents |
| `Gauntlet.Check` | demo/gauntlet_check_output.py:216-295 | the loop over lines computes `Scan` |
| `Gauntlet.SeparatorSplits` | demo/gauntlet_check_output.py:242-244 | checking a transcript with a separator is checking its two sides |
| `Gauntlet.LargerAllowlistFlagsFewer` | demo/gauntlet_check_output.py:141-295 | enlarging the allowlists leaves a subsequence of the flags |
| `Gauntlet.CrashesAreFlagged` | demo/gauntlet_check_output.py:246-260 | in every state and under every allowlist, all crash-class lines that are no headings are flagged, in order |
| `Gauntlet.DeserializeRowExcusedIff` | demo/gauntlet_check_output.py:232-260 | a deserialization row is passed over exactly when the last heading, with no separator since, is of an allowlisted function |
| `Gauntlet.ZeroCoverageFlaggedIff` | demo/gauntlet_check_output.py:232-286 | below a heading, past blank and log lines, a summary of zero coverage after at least one path is flagged exactly when the function is not allowlisted |
| `Gauntlet.LineAddsVerdict` | demo/gauntlet_check_output.py:216-295 | every line of every transcript is flagged as the lines before it say: crashes always, deserialization rows outside allowlisted blocks, clusters and scan rows that are not allowlisted, and the awaited summary of zero coverage |
| `Gauntlet.AllowsWithoutReason` | demo/gauntlet_check_output.py:141-143 | without a reason only an entry with an empty pin permits anything |
| `ArrayMutation.ChoicesCover` | shatter-core/src/array_mutation.rs:63-89 | every kind that makes sense for a length is chosen by some draw, and no other |
| `ArrayMutation.EveryDrawHasAValue` | shatter-core/src/array_mutation.rs:63-153 | for every chosen kind and all numbers drawn so far, the range of the next draw is non-empty and in bounds |
| `ArrayMutation.DrawsMakeAllowedIff` | shatter-core/src/array_mutation.rs:92-153 | numbers make an allowed mutation of the kind exactly when each was drawn from its range |
| `ArrayMutation.OtherIsBijection` | shatter-core/src/array_mutation.rs:116-123 | the adjusted second index of a swap ranges over every other index exactly once |
| `ArrayMutation.ApplyMutation` | shatter-core/src/array_mutation.rs:92-153 | the updated vector is that of `Apply` and at most two elements longer |
| `ArrayMutation.SwapKeepsElements` | shatter-core/src/array_mutation.rs:114-124 | a swap keeps the multiset of elements |
| `ArrayMutation.MutationIsLocal` | shatter-core/src/array_mutation.rs:92-153 | each mutation replaces its drawn range by its drawn elements and keeps everything outside it; a swap exchanges two distinct positions |
| `ArrayMutation.TypingIsKept` | shatter-core/src/array_mutation.rs:92-153 | any typing that the generator respects is kept |
| `ArrayMutation.GrowthIsBounded` | shatter-core/src/array_mutation.rs:92-153 | `n` successive mutations add at most `2n` elements |
| `ArrayMutation.ReachableIff` | shatter-core/src/array_mutation.rs:63-153 | one array leads to another by some finite run exactly when it has enough copies of every value that the generator cannot produce |
| `ArrayMutation.ProducibleIsReachable` | shatter-core/src/array_mutation.rs:63-153 | hence any array of producible values can be reached from any array |

## Left out

- The concolic engine, the frontends themselves, the CLI's argument parsing, rendering and telemetry.
- Environment probes, subprocess calls, permission bits beyond "private" and "executable", and human-readable messages.
- `ensure_extracted_with_fallback` and the choice of the cache directory: one retry in another directory.
- Wrap-around of the 64-bit staging counters after 2^64 extractions in one process.
- The real JSON, YAML, regular-expression and SHA-256 implementations: parameters with the properties stated in the conventions.
- The removal of write bits from snapshots, what users of a snapshot do in its `.git`, and Git's own behaviour: a
  clone or fetch that succeeds is taken to be whole, and which repositories serve a commit is a parameter.
- The appenders' retry interval and clock in `acquire_lock`: waiting ends at any time.
- The text-mode decoding of the event log and its translation of carriage returns: the threshold model starts from the log's lines.
- `load_allowlist` with its expiry dates, and `check_scan_json`.
- `mutate_array_batch`, which mutates the same seed several times independently.
- The field-model checks that `validate-protocol-registry.py` makes after loading.
