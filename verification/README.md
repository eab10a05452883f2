# Verified model of the Agent desktop client's state machines

The desktop client is mostly user interface, but a dozen of its parts are
self-contained transactions, parsers, state machines and fixpoints. This
project models those parts and proves what each of them is for. Where the
source updates an object in place, the model is a class whose methods are proved
against a specification function; the properties are then lemmas about that
function, over every run of it.

| file | what it models |
|---|---|
| `Text.dfy` | trimming, decimal numbers, the order of strings, positions in a list |
| `ImportLayout.dfy`, `PendingImport.dfy`, `ImportSchedule.dfy` | the transaction that swaps imported databases in, its rollback, and the manifest that schedules it, over a disk on which any operation can fail |
| `AskUser.dfy`, `AskUserActions.dfy`, `AskUserFlow.dfy`, `AskUserExact.dfy` | the question wizard; what each action does; what a completed run has answered; exactly which wizards stay well-formed and can be completed |
| `JsonCodec.dfy`, `JsonSpelling.dfy` | the debug protocol's JSON printer and flat object parser; how each character is spelled |
| `DebugState.dfy`, `DebugCaptures.dfy` | the bounded, edge-triggered error and log histories; what each event adds to them |
| `DocumentEditor.dfy`, `Utf8.dfy` | byte offsets and (line, byte column) positions in UTF-8 text; the text against the definition of UTF-8 |
| `PaneLayout.dfy`, `PaneKeys.dfy` | pane layout trees and the split widgets cached for them; exactly when split keys collide |
| `Sidebar.dfy`, `SidebarPlacement.dfy`, `SidebarRows.dfy`, `SidebarReconcile.dfy`, `SidebarShell.dfy`, `SidebarRuns.dfy` | sidebar sections and the rows each shows, the keyed widget maps, the memo that skips syncs, and what any run of syncs leaves |
| `CredentialImport.dfy` | importing credentials into a keyring |
| `JournalExport.dfy` | publishers, the writer thread and the drop of the journal export, interleaved |
| `ProcessTree.dfy` | the process tree fixpoint and its saturating totals |
| `Presets.dfy` | fresh preset ids; merging of fetched models |
| `Timeline.dfy`, `TimelineTexts.dfy` | the debug overlay's events and pending requests; what they show |

## What the proofs found

- A rollback does not always keep staged content. Its second loop renames over
  whatever is in the database directory, so a database that could not be moved
  back to staging is overwritten by its old version.
  `PendingImport.Rollback` states exactly which staged contents are lost, and that
  every rename was free of overwriting if and only if none is;
  `PendingImport.RollbackCanLose` gives the run, from any disk with an old and a
  staged database of one name. The activation itself never overwrites.
- Nothing but the schedule keeps a manifest from listing a database twice. With
  every operation succeeding, such a manifest is reported as rolled back, and the
  net effect is that the staged database was renamed over the old one
  (`PendingImport.Activate`). `ImportSchedule.ListedKindsProper` gives the exact
  reports for which the schedule lists each kind once, and
  `ImportSchedule.ImportAndRestart` what that means from the report to the
  restarted client.
- The wizard accepts questions that share an id. Its drafts stay well-formed exactly
  if such questions have the same answers (`AskUserExact.WellFormedExactly`), and it
  can complete without the answer to a required question, since skipping a later
  question with the same id removes it; `AskUserFlow.RequiredAnsweredExactly` gives
  the exact condition. A maximum of zero makes the selection panic, in exactly the
  cases of `AskUser.PanicsExactly`.
- Sidebar rows can share an id: in the unified display mode a running session is
  listed as a running row and again as a task
  (apps/desktop/src/desktop.rs:2953-3027). Every sync of such a list destroys and
  rebuilds the row's widget (`SidebarRuns.RunningSessionIsRebuilt`), so there the
  memo is not a mere optimisation. `SidebarRuns.TransparentExactly` gives the exact
  condition on the rows under which it is.
- A tool button that a row no longer wants stays cached while the row keeps its kind
  and some other tool; `SidebarRuns.ButtonsExactly` says exactly which are cached.
- The exported journal is documented as an ordered log. Each publisher's records
  are in order, but any two publishers can be exported out of sequence order, since
  a number is taken under one lock and sent under another: the file is in sequence
  order in all runs exactly for at most one publisher (`JournalExport.OrderedExactly`).
- Distinct pane ids can still share a split key. `PaneKeys.KeysDistinctExactly` gives
  the exact ids for which no layout does; it suffices that all ids but the first
  are free of colons (`PaneLayout.KeysDistinct`).
- Two different errors can share a key exactly if one source continues the other with
  a NUL (`DebugState.KeysCollideExactly`), and then the second is not reported
  (`DebugState.SharedKeySuppresses`).
- The debug parser is more liberal than RFC 8259, sections 4 and 7: it allows one
  trailing comma and Unicode white space, and refuses surrogate escapes.
  `JsonCodec.ParseObjectExact` says exactly what it accepts.

## Model

| member | source | states |
|---|---|---|
| `Text.TrimCuts` | apps/desktop/src/ask_user.rs:319-322 | trimming cuts Unicode white space off both ends and nothing else |
| `Text.TrimExactly` | apps/desktop/src/ask_user.rs:319-322 | trimming takes all the white space off both ends |
| `Text.BlankExactly` | apps/desktop/src/ask_user.rs:319-322 | a string is blank exactly if it holds nothing but white space |
| `Text.LessExactly` | apps/desktop/src/host.rs:196-202 | the order of the keys is that of the first difference, a proper prefix first |
| `ImportLayout.ComponentsInjective` | apps/desktop/src/pending_import.rs:561-573 | no two databases share a component file name, so twelve names name twelve files |
| `ImportLayout.Places` | apps/desktop/src/pending_import.rs:492-502 | database directory, staging and backup are disjoint when staging lies inside the staging root |
| `ImportLayout.ShapeConserved` | apps/desktop/src/pending_import.rs:307-333 | while nothing is lost, every old component is in place or in the backup, every staged file in staging or in place, and no other file changed |
| `ImportLayout.ShapeRestored` | apps/desktop/src/pending_import.rs:342-376 | an import that put everything back leaves the very file table of before |
| `ImportLayout.PutBack` | apps/desktop/src/pending_import.rs:358-367 | what putting a component back does, including when its staged database is still live: that content is lost |
| `ImportLayout.LostIsGone` | apps/desktop/src/pending_import.rs:358-367 | a lost database holds its old content and its staged content is in neither directory |
| `PendingImport.Disk.Rename` | apps/desktop/src/pending_import.rs:318-326 | a rename moves one file, replacing what was there, or fails with no effect |
| `PendingImport.MoveAside` | apps/desktop/src/pending_import.rs:312-322 | moves exactly the existing components of a database to the backup; on failure those moved so far are in the backup and nothing else changed |
| `PendingImport.StageOne` | apps/desktop/src/pending_import.rs:309-327 | one database swapped: its components aside, its staged file live, no overwrite |
| `PendingImport.Swap` | apps/desktop/src/pending_import.rs:307-330 | the swap loop: what has been moved at success and at every failure, all conserved before every rename |
| `PendingImport.WithdrawAll` | apps/desktop/src/pending_import.rs:348-357 | the first rollback loop: live databases go back to staging, last first; without a failure none stays live |
| `PendingImport.PutBackAll` | apps/desktop/src/pending_import.rs:358-367 | the second rollback loop: which components came back and which staged contents were overwritten |
| `PendingImport.Rollback` | apps/desktop/src/pending_import.rs:342-376 | a reported success restores everything; otherwise exactly the databases that were stuck and then overwritten are lost, and the renames were free of overwriting if and only if none was |
| `PendingImport.TargetIsEmpty` | apps/desktop/src/pending_import.rs:70-78 | true exactly if no database present holds user rows, unless reading fails |
| `PendingImport.StagedUnchanged` | apps/desktop/src/pending_import.rs:289-297 | accepts exactly the staged databases with the recorded length and digest that are intact |
| `PendingImport.AdmissibleExactly` | apps/desktop/src/pending_import.rs:276-305 | all conditions of an import, in terms of the disk alone: version, plan name, place of staging, no backup of that name, no user rows in any of the four databases, and every staged database with its recorded length and digest, intact |
| `PendingImport.Prepare` | apps/desktop/src/pending_import.rs:277-305 | all checks precede any move, and an absent backup directory means an empty backup |
| `PendingImport.SwapOrUndo` | apps/desktop/src/pending_import.rs:307-334 | all or nothing for distinct kinds: a stopped swap whose rollback meets no fault restores the old file table, and only a fault during the rollback can end as failed; without faults it completes for distinct kinds, and otherwise the first repeated kind's staged database is renamed over the old one |
| `PendingImport.Activate` | apps/desktop/src/pending_import.rs:276-341 | the whole transaction: an import begins only if no database in the directory holds user rows, every staged one is as recorded and the other written-out conditions hold, and without faults then always; a swap that is not undone has every staged database in place and every old component, sidecars included, in the backup; an inadmissible manifest is always refused, without faults only such a one is, and refusal changes no file; otherwise activated, rolled back to the old file table, or left as `Rollback` says, which takes a fault during the rollback; errors after the swap keep the swap; the backup directory stays after a rollback, so a retry is refused |
| `PendingImport.PlannedMeans` | apps/desktop/src/pending_import.rs:307-330 | after a completed swap each listed database has its staged content and no old sidecar, and all its old components are in the backup |
| `PendingImport.RedoneShape` | apps/desktop/src/pending_import.rs:311-327 | meeting a kind again renames its new content over the backup of the old one |
| `PendingImport.RollbackCanLose` | apps/desktop/src/pending_import.rs:311-367 | from any file table with an old and a staged database of one name, a swap and a rollback whose withdrawal fails delete exactly the staged database |
| `PendingImport.OverwriteLosesStaged` | apps/desktop/src/pending_import.rs:348-367 | the overwriting rename of a rollback, wherever it happens, breaks conservation if the contents differ |
| `ImportSchedule.ListedKindsProper` | apps/desktop/src/pending_import.rs:86-126 | a manifest lists no kind twice if and only if the report copies none twice; the legacy database is never listed, Product is whenever it was merged, and nothing else that was not copied |
| `ImportSchedule.ListedExactly` | apps/desktop/src/pending_import.rs:91-126 | the kinds listed are exactly those of the copied databases, the legacy one counting as the product database |
| `ImportSchedule.WriteManifest` | apps/desktop/src/pending_import.rs:456-479 | publishes the encoded manifest only where none waits, and leaves the manifest path alone on every failure |
| `ImportSchedule.Schedule` | apps/desktop/src/pending_import.rs:80-141 | without faults a report is scheduled exactly if, in terms of its items and the disk, it is complete, well placed and named, copies a database, all copies exist and no manifest waits, and there is nothing to schedule exactly if it copies none; a scheduled manifest lists the copied kinds with their true lengths and digests; otherwise the manifest path is unchanged |
| `ImportSchedule.ImportAndRestart` | apps/desktop/src/pending_import.rs:47-141 | from the report to the restarted client: with intact copies, an empty database directory, no backup of that name and no faults, the import is scheduled and then activated if and only if the report copies no kind twice, and then every database has its staged content and its old components are in the backup |
| `AskUser.AskUserDraft.LoadCurrentAnswer` | apps/desktop/src/ask_user.rs:287-307 | loads the saved answer that fits the question's mode, else an empty selection |
| `AskUser.AskUserDraft.MoveOn` | apps/desktop/src/ask_user.rs:268-275 | the next question, or completion after the last |
| `AskUser.AskUserDraft.Toggle` | apps/desktop/src/ask_user.rs:164-183 | toggling in a multiple choice, dropping the oldest choice when full |
| `AskUser.AskUserDraft.Apply` | apps/desktop/src/ask_user.rs:146-230 | every action has exactly the effect and the outcome of the step relation |
| `AskUserActions.AcceptsExactly` | apps/desktop/src/ask_user.rs:31-42 | a question accepts the id of an option, else its label, else its number, and "other" where allowed |
| `AskUserActions.ChosenSingle` | apps/desktop/src/ask_user.rs:151-163 | a single choice replaces the one before and keeps the text only for "other" |
| `AskUserActions.ChosenMulti` | apps/desktop/src/ask_user.rs:164-185 | a multiple choice is taken back if it was made, else made last, and the oldest goes when the maximum is exceeded |
| `AskUserActions.Submitted` | apps/desktop/src/ask_user.rs:193-275 | a submission goes through exactly when enough is chosen and "other" has a text; it saves the choices with the trimmed text and moves on or completes |
| `AskUserActions.Rejected` | apps/desktop/src/ask_user.rs:200-210 | rejecting answers a confirmation with no, and nothing else |
| `AskUserActions.Skipped` | apps/desktop/src/ask_user.rs:211-216 | one of several questions that may be skipped loses its answer |
| `AskUserActions.WentBack` | apps/desktop/src/ask_user.rs:217-226 | going back saves what a submission would save, except for a confirmation |
| `AskUserActions.CancelledOrTyped` | apps/desktop/src/ask_user.rs:187-227 | cancelling ends a wizard that may be dismissed; text is taken only while "other" is chosen |
| `AskUserActions.SavedAnswerShown` | apps/desktop/src/ask_user.rs:268-307 | a question that is moved to, forwards or back, shows its saved choices and text, or nothing |
| `AskUser.StepKeepsWellFormed` | apps/desktop/src/ask_user.rs:146-230 | every action keeps index, selection and saved answers well-formed if questions with the same id have the same answers |
| `AskUser.ReachableWellFormed` | apps/desktop/src/ask_user.rs:146-307 | so does every run: duplicate-free accepted selections within mode and maximum, answers keyed by their question, "other" only where allowed, notes trimmed, not blank and present exactly with "other" |
| `AskUserExact.WellFormedExactly` | apps/desktop/src/ask_user.rs:146-307 | and the condition is necessary: otherwise some run leaves a draft that is not well-formed |
| `AskUser.DistinctIdsAreCompatible` | apps/desktop/src/ask_user.rs:193-226 | distinct question ids suffice for it |
| `AskUserExact.IllFormedRun` | apps/desktop/src/ask_user.rs:146-307 | that run, built from an answer of one question that is none of the other |
| `AskUserExact.RepeatedIdFails` | apps/desktop/src/ask_user.rs:193-199 | the shortest such case: a confirmation and a choice under one id |
| `AskUserExact.Give` | apps/desktop/src/ask_user.rs:151-210 | every answer a question has can be given from every well-formed draft |
| `AskUser.StartWellFormed` | apps/desktop/src/ask_user.rs:104-110 | a new draft is well-formed for any spec with questions |
| `AskUser.StepChangesOneAnswer` | apps/desktop/src/ask_user.rs:193-226 | an action touches the saved answer of the current question at most |
| `AskUser.PanicsExactly` | apps/desktop/src/ask_user.rs:174-180 | removing from an empty selection happens exactly when an accepted option of a multiple choice with maximum zero is selected while nothing is; in well-formed drafts nothing ever is |
| `AskUser.SubmitThenBack` | apps/desktop/src/ask_user.rs:193-226 | submitting and going back restores the selection and the trimmed text, empty without "other" |
| `AskUserActions.BackThenSubmit` | apps/desktop/src/ask_user.rs:193-307 | going back to an answered question and submitting it again restores the selection and the trimmed text of the question left |
| `AskUserFlow.CompletedAnswersRequired` | apps/desktop/src/ask_user.rs:193-285 | a run that completes without cancelling has an answer for every required question, if the last question of each required id is required |
| `AskUserFlow.DistinctIdsKeepRequired` | apps/desktop/src/ask_user.rs:211-216 | distinct ids meet that condition |
| `AskUserFlow.RequiredAnsweredExactly` | apps/desktop/src/ask_user.rs:193-285 | and the condition is necessary: otherwise some run completes with a required answer missing |
| `AskUserFlow.UnsafeRun` | apps/desktop/src/ask_user.rs:211-216 | that run, built from the questions, pending at every step before its last |
| `AskUserFlow.ReachableEditable` | apps/desktop/src/ask_user.rs:146-307 | what every reachable draft allows even with repeated ids |
| `AskUserFlow.Fill` | apps/desktop/src/ask_user.rs:151-198 | from any reachable draft of a question that has an answer, some actions, all of them pending, make it submittable |
| `AskUserFlow.Complete` | apps/desktop/src/ask_user.rs:193-285 | from any reachable draft some actions complete the wizard, pending until the last one and leaving exactly the required answers |
| `AskUserFlow.CompletionReachable` | apps/desktop/src/ask_user.rs:146-285 | no pending run is a dead end if every required question has an answer |
| `AskUserExact.CompletableExactly` | apps/desktop/src/ask_user.rs:146-285 | if questions with the same id have the same answers, the wizard can be completed if and only if every required question has an answer |
| `AskUserExact.CompletionsExactly` | apps/desktop/src/ask_user.rs:193-285 | the exact condition of `RequiredAnsweredExactly` without assuming that required questions have answers |
| `JsonCodec.JsonString` | apps/desktop/src/agent_debug.rs:1256-1276 | the buffer loop prints the specified encoding |
| `JsonSpelling.PrintedExactly` | apps/desktop/src/agent_debug.rs:1256-1276 | which characters are escaped, and how |
| `JsonCodec.ParseAccepts` | apps/desktop/src/agent_debug.rs:1319-1364 | every spelling of a string, escaped or not, is read as its meaning and leaves the rest |
| `JsonCodec.ParseSound` | apps/desktop/src/agent_debug.rs:1319-1364 | whatever is accepted is a spelling of the value returned |
| `JsonCodec.RoundTrip` | apps/desktop/src/agent_debug.rs:1256-1364 | parsing an encoded string followed by any text gives the string and leaves exactly that text |
| `JsonCodec.EncodingPrefixFree` | apps/desktop/src/agent_debug.rs:1256-1276 | the encoding is injective and prefix-free |
| `JsonCodec.EncodingHasNoControl` | apps/desktop/src/agent_debug.rs:1259-1272 | no control character is printed, so a response never spans lines |
| `JsonCodec.JsonCursor.ReadUnicodeEscape` | apps/desktop/src/agent_debug.rs:1353-1364 | reads four hexadecimal digits as one scalar value, surrogates refused |
| `JsonSpelling.DigitsRead` | apps/desktop/src/agent_debug.rs:1353-1364 | four digits of either case are read as the character with that number, and the surrogates refused |
| `JsonSpelling.EscapesRead` | apps/desktop/src/agent_debug.rs:1333-1340 | the meaning of the eight short escapes |
| `JsonSpelling.OthersRefused` | apps/desktop/src/agent_debug.rs:1341-1348 | every other escape and every bare control character is refused, any other character read as itself |
| `JsonCodec.JsonCursor.ReadString` | apps/desktop/src/agent_debug.rs:1319-1351 | the cursor's loop agrees with the string parser on value, rest and error |
| `JsonCodec.JsonCursor.ReadObject` | apps/desktop/src/agent_debug.rs:1289-1317 | the cursor's loop terminates on every input and agrees with the object parser |
| `JsonCodec.ParseObjectSound` | apps/desktop/src/agent_debug.rs:1289-1317 | accepted input is a flat object of the grammar, with at most one trailing comma |
| `JsonCodec.DocumentRoundTrip` | apps/desktop/src/agent_debug.rs:1289-1317 | every document of the grammar is read as exactly its fields if its keys are distinct and refused as a duplicate otherwise |
| `JsonCodec.ParseObjectExact` | apps/desktop/src/agent_debug.rs:1289-1317 | the accepted inputs are exactly the documents with distinct keys |
| `JsonCodec.MapRoundTrip` | apps/desktop/src/agent_debug.rs:1256-1317 | a string map printed in any field order and any white space is read back |
| `DebugState.DebugLog.MarkLog` | apps/desktop/src/agent_debug.rs:82-94 | a mark takes the next number and is appended, the oldest log dropped when full |
| `DebugState.DebugLog.CaptureErrors` | apps/desktop/src/agent_debug.rs:96-127 | a batch pushes its rising edges in order and becomes the active set |
| `DebugCaptures.CaptureReports` | apps/desktop/src/agent_debug.rs:96-127 | a capture adds, in order, exactly the entries with two texts that are not blank and whose key was not active, trimmed and with the next numbers |
| `DebugCaptures.MarkReports` | apps/desktop/src/agent_debug.rs:82-94 | a mark adds one log entry with its texts and the next number, and no error |
| `DebugCaptures.CurrentJoin` | apps/desktop/src/agent_debug.rs:97-105 | a batch is read entry by entry |
| `DebugCaptures.CurrentSingle` | apps/desktop/src/agent_debug.rs:100-103 | an entry counts, trimmed, unless one of its texts is blank |
| `DebugCaptures.PreviousExactly` | apps/desktop/src/agent_debug.rs:106-125 | the active keys are those of the last batch, whatever marks follow |
| `DebugState.TrimFront` | apps/desktop/src/agent_debug.rs:1219-1223 | keeps the last elements |
| `DebugState.HistoriesBounded` | apps/desktop/src/agent_debug.rs:82-127 | after any run the logs are the last 240 marks and the errors the last 80 rising edges |
| `DebugCaptures.KeptExactly` | apps/desktop/src/agent_debug.rs:14-15 | the log keeps the last 80 errors and the last 240 marks, and all of them while there are fewer |
| `DebugState.ErrorIdsUnique` | apps/desktop/src/agent_debug.rs:110-124 | no two errors of a run share an id before the counter saturates |
| `DebugState.ErrorNumbersIncrease` | apps/desktop/src/agent_debug.rs:110-124 | the numbers of the rising edges increase |
| `DebugState.LogIdsUnique` | apps/desktop/src/agent_debug.rs:82-92 | no two logs of a run share an id before the counter saturates |
| `DebugState.KeysTellApart` | apps/desktop/src/agent_debug.rs:1215-1217 | keys are injective for sources without NUL |
| `DebugState.KeysCollideExactly` | apps/desktop/src/agent_debug.rs:1215-1217 | two sources can share a key if and only if one continues the other with a NUL |
| `DebugState.SharedKeySuppresses` | apps/desktop/src/agent_debug.rs:106-114 | an error whose key was active under other texts is not reported, although it was absent from the previous batch |
| `DebugState.SharedKeyExists` | apps/desktop/src/agent_debug.rs:1215-1217 | such errors exist |
| `DocumentEditor.ValidTextStartsClean` | apps/desktop/src/document_editor.rs:69-80 | in valid UTF-8 no line starts inside a character |
| `Utf8.ValidExactly` | apps/desktop/src/document_editor.rs:51-80 | a text is valid exactly if it encodes some characters by the table of RFC 3629 |
| `Utf8.BoundaryExactly` | apps/desktop/src/document_editor.rs:69-72 | an offset is a boundary exactly if it cuts the text in two valid ones |
| `Utf8.BreaksExactly` | apps/desktop/src/document_editor.rs:73-74 | the line of an offset is the number of line feeds before it |
| `Utf8.LineStartExactly` | apps/desktop/src/document_editor.rs:75-77 | its line starts after the last of them |
| `DocumentEditor.LineOfOffset` | apps/desktop/src/document_editor.rs:69-80 | counting breaks and finding the last one names the line that contains the offset |
| `DocumentEditor.OffsetOfPosition` | apps/desktop/src/document_editor.rs:51-80 | every boundary offset is recovered from its position |
| `DocumentEditor.PositionOfOffset` | apps/desktop/src/document_editor.rs:51-80 | every offset computed from a position is a boundary with that position |
| `DocumentEditor.OrderPreserved` | apps/desktop/src/document_editor.rs:69-80 | offsets are ordered as their positions |
| `DocumentEditor.Correspondence` | apps/desktop/src/document_editor.rs:51-80 | boundaries and positions of valid text correspond one to one and in order, within 32 bits for shorter texts |
| `DocumentEditor.Clamp` | apps/desktop/src/document_editor.rs:117-125 | the result is the largest boundary of the line not past the request |
| `DocumentEditor.ValidByteColumn` | apps/desktop/src/document_editor.rs:117-125 | the clamping loop computes it, also for requests past the line |
| `DocumentEditor.TextEditorState.CursorOffset` | apps/desktop/src/document_editor.rs:51-68 | the line walk yields the offset of the cursor's position, or none |
| `DocumentEditor.TextEditorState.SelectRange` | apps/desktop/src/document_editor.rs:82-115 | selects the clamped range exactly when both lines exist and the range is not reversed |
| `DocumentEditor.TextEditorState.SelectOffsets` | apps/desktop/src/document_editor.rs:30-49 | succeeds exactly for ordered boundaries whose positions fit 32 bits, and the selection reads back as those offsets |
| `PaneLayout.KeysDistinct` | apps/desktop/src/runtime_shell.rs:423-441 | no two splits of a keyed layout share a key, and there is one split fewer than leaves |
| `PaneKeys.KeysDistinctExactly` | apps/desktop/src/runtime_shell.rs:423-441 | the split keys of all layouts over some ids are distinct if and only if no two pairs of the ids have the same key |
| `PaneKeys.CollisionShows` | apps/desktop/src/runtime_shell.rs:6116-6116 | colliding pairs make a layout of distinct leaves whose keys collide |
| `PaneKeys.ColonsCollide` | apps/desktop/src/runtime_shell.rs:6116-6116 | distinct ids that do |
| `PaneLayout.PaneShell.UpdateSplit` | apps/desktop/src/runtime_shell.rs:6126-6156 | the split of a key exists and has its halves around its handle; all other cached widgets survive |
| `PaneLayout.PaneShell.MountPaneLayout` | apps/desktop/src/runtime_shell.rs:6096-6173 | exactly the layout's keys are added, and with distinct keys the cached widgets have the layout's shape |
| `PaneLayout.PaneShell.SyncPanes` | apps/desktop/src/runtime_shell.rs:6022-6094 | fewer than two named leaves drop every cached widget; otherwise each pane but the primary keeps its own chrome, stale ones go, and a keyed layout is mounted |
| `PaneLayout.PrimaryExactly` | apps/desktop/src/runtime_shell.rs:6051-6057 | the primary pane is the first active one, else the first, else the first named leaf |
| `PaneLayout.NamedJoin` | apps/desktop/src/runtime_shell.rs:6028-6034 | the leaves that count are found one by one, in order |
| `PaneLayout.NamedOne` | apps/desktop/src/runtime_shell.rs:6032-6032 | those count that have a name |
| `PaneLayout.TreeHasNoSharing` | apps/desktop/src/runtime_shell.rs:6096-6184 | no node occurs twice in the mounted layout if and only if at most one leaf is shown by the primary chrome |
| `PaneLayout.MatchingPanesMakeATree` | apps/desktop/src/runtime_shell.rs:6022-6184 | when every leaf has a pane the mounted widgets form a tree |
| `Sidebar.PartitionRows` | apps/desktop/src/runtime_shell.rs:6895-6981 | the bucket loop computes the three sections |
| `Sidebar.SectionsPartition` | apps/desktop/src/runtime_shell.rs:6946-6973 | every row that is not section chrome is in exactly one section, none is added |
| `SidebarPlacement.ChromeExactly` | apps/desktop/src/runtime_shell.rs:6887-6893 | which rows are section chrome |
| `SidebarPlacement.RowsPlaced` | apps/desktop/src/runtime_shell.rs:6946-6973 | outside a search each section shows, in order, exactly the rows after the header or inbox row that opens it, and the projects also all drop hints and archived rows once there is such a row |
| `SidebarPlacement.ListsPlaced` | apps/desktop/src/runtime_shell.rs:6907-6945 | a search shows all visible rows in one list, and without rows every task is one |
| `Sidebar.GroupsDistinct` | apps/desktop/src/runtime_shell.rs:6895-6981 | distinct row ids stay distinct across the sections |
| `SidebarRows.ToolKeysInjective` | apps/desktop/src/runtime_shell.rs:3723-3727 | tool buttons of different rows or kinds never share a key |
| `SidebarRows.SyncRowAt` | apps/desktop/src/runtime_shell.rs:3634-3705 | syncing one row follows the rule for that row and touches no other |
| `SidebarRows.SyncedRowShows` | apps/desktop/src/runtime_shell.rs:3522-3624 | after a sync every tool the row offers has a button under its key that asks for the right thing, and a row that offers none has no buttons |
| `SidebarReconcile.ReconcileAt` | apps/desktop/src/runtime_shell.rs:3740-3761 | afterwards the last row of an id decides its kind and tools, its widget survives exactly if all its rows have the old kind, its buttons are those its rows offer or keep, and nothing is left of other ids |
| `SidebarReconcile.ReconcileTwiceExactly` | apps/desktop/src/runtime_shell.rs:3740-3761 | reconciling the same rows again changes nothing if and only if rows with the same id have the same kind and all or none of them want tools |
| `SidebarReconcile.ReconciledKeys` | apps/desktop/src/runtime_shell.rs:3522-3760 | row, kind, tool host and button maps have exactly the keys the rows call for, whatever ids repeat |
| `SidebarShell.ShellSidebar.SyncRowTools` | apps/desktop/src/runtime_shell.rs:3522-3624 | caches wanted buttons, clears a row that wants none |
| `SidebarShell.ShellSidebar.ClearRowTools` | apps/desktop/src/runtime_shell.rs:3709-3729 | drops the host and the three buttons of a row |
| `SidebarShell.ShellSidebar.EnsureSidebarRow` | apps/desktop/src/runtime_shell.rs:3636-3702 | a row of another kind is replaced, a missing one created, any other kept |
| `SidebarShell.ShellSidebar.SyncSidebarRowGroup` | apps/desktop/src/runtime_shell.rs:3626-3707 | syncs the rows of a group in order and collects their ids |
| `SidebarShell.ShellSidebar.ReconcileTaskRows` | apps/desktop/src/runtime_shell.rs:3740-3761 | the three groups synced and every other row removed |
| `SidebarShell.ShellSidebar.SyncLists` | apps/desktop/src/runtime_shell.rs:3371-3391 | skips exactly when rows, tasks and search flag equal the last ones |
| `SidebarRuns.MemoIsTransparent` | apps/desktop/src/runtime_shell.rs:3381-3391 | after any syncs of snapshots whose rows agree the maps equal those of a shell that never skips |
| `SidebarRuns.TransparentExactly` | apps/desktop/src/runtime_shell.rs:3381-3391 | the memo is invisible in all runs over some snapshots if and only if the rows of each agree |
| `SidebarRuns.DistinctRowsAgree` | apps/desktop/src/runtime_shell.rs:6895-6981 | distinct row and task ids suffice for that |
| `SidebarRuns.RunningSessionIsRebuilt` | apps/desktop/src/desktop.rs:2953-3027 | the unified list of a running session does not agree: without the memo a second sync replaces its widget |
| `SidebarRuns.RunKeys` | apps/desktop/src/runtime_shell.rs:3371-3391 | after any syncs the row, kind and host maps have exactly the keys the last snapshot calls for |
| `SidebarRuns.ButtonsExactly` | apps/desktop/src/runtime_shell.rs:3522-3624 | after any syncs a tool button is cached if and only if some snapshot offered it and every later one lists the row with the same kind and some tool |
| `SidebarRuns.WidgetSurvives` | apps/desktop/src/runtime_shell.rs:3636-3702 | a row's widget survives a sync exactly if it was there and all rows with its id have its kind, a skipped sync changes nothing, and no widget passes to another row |
| `CredentialImport.NeighboursOrderAll` | apps/desktop/src/host.rs:146-148 | comparing neighbours orders all pairs of entries |
| `CredentialImport.ManifestExactly` | apps/desktop/src/host.rs:137-220 | a manifest holds accounts of the source instance under their own names, and two kinds of older accounts under new ones |
| `CredentialImport.NamesExactly` | apps/desktop/src/host.rs:222-241 | which agent keys and logins are well-formed |
| `CredentialImport.Keyring.ImportOne` | apps/desktop/src/host.rs:167-191 | one entry: without a fault, stored exactly if its source exists and its target does not, skipped exactly if they are equal, else failed with no effect |
| `CredentialImport.Keyring.ImportConfirmed` | apps/desktop/src/host.rs:137-194 | refused exactly for an invalid manifest; never overwrites; without a fault every entry whose source exists has a target, a free one holding the secret of its first such entry, the available keys are those of the entries whose slots agree in the end, and as many were imported as slots are new; imported, skipped and failed add up to the entries |
| `CredentialImport.SourcesAreSettled` | apps/desktop/src/host.rs:204-241 | no entry of a valid manifest writes the source of an earlier one, even for an instance named like a legacy service |
| `CredentialImport.ImportIsIdempotent` | apps/desktop/src/host.rs:166-193 | without failures a second run stores nothing, skips what was imported or skipped, and repeats the failures and the available keys |
| `JournalExport.ExportIsFaithful` | apps/desktop/src/journal_export.rs:56-133 | in every interleaving the file is a prefix of the accepted records, a refusal is reported at most once, and without I/O failure the file is complete when the drop has returned |
| `JournalExport.NothingRefused` | apps/desktop/src/journal_export.rs:112-124 | until the export is closed or a write fails nothing is refused: every number taken belongs to an accepted record or one about to be sent |
| `JournalExport.PublisherOrderKept` | crates/lilia-kernel/src/journal.rs:92-125 | each publisher's records are exported in the order it numbered them, each at most once |
| `JournalExport.OrderCanInvert` | crates/lilia-kernel/src/journal.rs:92-125 | any two publishers' records can be exported against their sequence numbers |
| `JournalExport.OrderedExactly` | crates/lilia-kernel/src/journal.rs:92-125 | all runs by some publishers export in sequence order if and only if there is at most one of them |
| `JournalExport.SoloExportIsSequential` | apps/desktop/src/journal_export.rs:112-133 | with one publisher and no refusal the file is numbered 1, 2, 3 and so on |
| `JournalExport.StepsRunOut` | apps/desktop/src/journal_export.rs:59-69 | after the close every step of writer and owner brings the join closer, and no publisher can delay it |
| `JournalExport.JoinNeverStuck` | apps/desktop/src/journal_export.rs:84-91 | while the owner waits, the writer or the join can take a step |
| `JournalExport.DropReturns` | apps/desktop/src/journal_export.rs:84-110 | from every state in which the owner waits the drop returns, within a bounded number of steps |
| `ProcessTree.Descendants` | apps/desktop/examples/native_performance_probe.rs:169-182 | the in-place passes end with exactly the processes reachable from the root |
| `ProcessTree.SampleTree` | apps/desktop/examples/native_performance_probe.rs:184-214 | totals are the true sums capped at the largest 64-bit number; sampled and inaccessible processes add up to the discovered ones |
| `ProcessTree.SumJoin` | apps/desktop/examples/native_performance_probe.rs:189-196 | processes are added up one by one, in any grouping |
| `ProcessTree.SumOne` | apps/desktop/examples/native_performance_probe.rs:189-196 | a sampled process counts with both its times, its working set and its private bytes, any other not at all |
| `ProcessTree.InaccessibleAre` | apps/desktop/examples/native_performance_probe.rs:197-197 | the processes without a sample are listed in order |
| `Presets.CandidatesInjective` | apps/desktop/src/provider_ai_settings.rs:290-296 | candidate ids of one label are pairwise distinct |
| `Presets.SomeCandidateFree` | apps/desktop/src/provider_ai_settings.rs:290-296 | fewer than 2^32 - 1 presets leave a candidate free, by counting |
| `Presets.SearchStopsExactly` | apps/desktop/src/provider_ai_settings.rs:292-296 | the search with its saturating suffix stops if and only if a candidate is free |
| `Presets.FreshId` | apps/desktop/src/provider_ai_settings.rs:290-296 | it returns the first free candidate |
| `Presets.FirstFreeExactly` | apps/desktop/src/provider_ai_settings.rs:290-296 | that is the bare id if it is unused, else the one with the smallest unused number |
| `Presets.ProviderAiSettings.AddCustomPreset` | apps/desktop/src/provider_ai_settings.rs:271-306 | the new id was unused, ids stay distinct and earlier presets are unchanged |
| `Presets.NormalizePool` | apps/desktop/src/application/provider_ui_settings.rs:668-701 | the loop with its set of seen ids computes the normalized pool |
| `Presets.NormalizedProper` | apps/desktop/src/application/provider_ui_settings.rs:668-701 | normalized models have distinct, trimmed, non-blank ids and non-blank labels |
| `Presets.ProviderAiSettings.MergeFetchedModels` | apps/desktop/src/provider_ai_settings.rs:141-169 | adds, in the order fetched, exactly the first model of each id that is not blank and new to the pool, with its trimmed label or its id; every other model keeps its place and label, and the first with a fetched id is marked and takes the fetched label for a blank one; returns the growth of the pool |
| `Presets.MergeKeeps` | apps/desktop/src/provider_ai_settings.rs:141-169 | ids keep their place, non-blank labels survive, distinct ids and labelled pools stay so |
| `Presets.MergeIsIdempotent` | apps/desktop/src/provider_ai_settings.rs:141-169 | merging the same models again adds and changes nothing |
| `Timeline.NativeDebugTimeline.Inject` | apps/desktop/src/debug_timeline.rs:64-100 | appends one event, and one request when the action asks |
| `TimelineTexts.InjectedShows` | apps/desktop/src/debug_timeline.rs:64-100 | number, ids, kind and status of the new event, and of the request that waits exactly for plans, questions and permissions |
| `Timeline.NativeDebugTimeline.Resolve` | apps/desktop/src/debug_timeline.rs:113-147 | true exactly if the task has the request; the new state |
| `TimelineTexts.AnswerShown` | apps/desktop/src/debug_timeline.rs:129-146 | the event of an answered request is shown as done or cancelled, with the summary, and nothing else of any event changes |
| `TimelineTexts.AnswersSummed` | apps/desktop/src/debug_timeline.rs:386-404 | the summary of each answer |
| `Timeline.ResolveExactly` | apps/desktop/src/debug_timeline.rs:113-147 | answering takes exactly one request and its event's need for action away, and changes no other event |
| `Timeline.ResolveKeeps` | apps/desktop/src/debug_timeline.rs:113-147 | no other task changes, and nothing without such a request |
| `Timeline.ReachableMatch` | apps/desktop/src/debug_timeline.rs:64-147 | in every run the waiting requests point, in order, at exactly the events that require action |
| `Timeline.AnsweredOnce` | apps/desktop/src/debug_timeline.rs:64-147 | an answered request never waits again, whatever follows |
| `Timeline.OverlayRises` | apps/desktop/src/debug_timeline.rs:77-77 | shown numbers strictly increase through the first 10,000 injections and exactly until they reach the largest |
| `Timeline.FreshExactly` | apps/desktop/src/debug_timeline.rs:65-68 | a new event id is unused if and only if the counter is below its limit |

## Left out

- SQLite, SHA-256 and serde are functions of file contents (`Tools`); the SQL merge of the legacy database is taken as done before `Schedule`.
- The writer lock, processes, `discard_staging` and the restart of the client.
- Symbolic links and `..`: resolving a path is the identity on existing directories. A directory at the path of a database component, too, is not modelled.
- A failed operation of the modelled disk counts as a fault; renames that fail for a missing parent directory are such faults.
- PendingImport.Rollback: does not promise that no staged content is lost, because the source's second loop overwrites a database whose withdrawal failed; it states exactly when that happens.
- AskUserExact.WellFormedExactly: the necessity of the condition assumes that every required question has an answer, because otherwise later questions are out of reach.
- AskUserExact.CompletableExactly: assumes that questions with the same id have the same answers only for the direction from completion to answers; `AskUserFlow.Complete` needs no such assumption.
- JournalExport.ExportIsFaithful: the saturation of the 64-bit sequence number is not modelled.
- JSON payload decoding of the wizard's specification, and the wire form of its answers.
- `parse_request` and the TCP server of the debug protocol; time stamps are parameters.
- The editor's cell and its undo history: the text is a field of the model's editor, and moving its cursor assigns one.
- What widgets show: labels, icons, styles, contents, sizes, ratios and the framework's errors; a widget is a fresh handle and a split its children.
- The memo guards of the timeline and the workspace, which omit inputs that are read.
- The slug a preset id derives from: `AddCustomPreset` takes any base. Sources and backends inside the pool's normalization, which the merge overwrites.
- `composer_model_options`, `xtask` and the other single-loop checks, which would only add easy members.
- Windows calls and floating-point conversions of the performance probe; a sample is a function of the process.
