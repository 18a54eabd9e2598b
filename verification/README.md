# The studio's logic, modelled and proved

The studio is the web page of the queue runner. Its logic lives outside the views, in `studio/src/lib`: the live log is
folded from a stream of narration events, notices are read as markdown, the queue is replicated from a server stream, each
terminal keeps one websocket alive across tabs, and several dialogs edit selections and patches. This project models that
logic in Dafny and proves what its readers rely on. Code that updates state is modelled by classes and methods proved
against functions on values; what the code promises is then proved about those functions, for every input and every run.

## The modules

| modules | what they model |
|---|---|
| `LogRows`, `LogStream`, `LogFold`, `LogLaws`, `LogCases` | the live log: events, the fold that splits attempts, drops, composes and marks lines, an event-by-event definition of the folded log, its laws, and logs that break the conditional ones |
| `LaneGroups`, `LaneLaws`, `LaneGrowth` | grouping the log's lines by lane, and the grouped view of a growing log |
| `MarkdownTables`, `MarkdownBlocks`, `MarkdownLaws`, `MarkdownPrint` | the block reader (sections 4.5 and 4.10 of the GitHub Flavored Markdown spec), its laws, and the printer it undoes |
| `MarkdownInline`, `InlinePrint` | splitting one line into code, strong, em and link parts, and the printer it undoes |
| `Terminal`, `TerminalRuns` | one terminal's connection machine, the registry of them, and every run of calls and callbacks |
| `Replica`, `ReplicaLaws`, `QueueStream` | the patch between two reads of the queue, its application in the page, and the server's shared poller |
| `JobStream` | the state of one job's stream |
| `LinkPlan`, `ProjectEdit` | the link dialog's selection and the edit drawer's diff, patch and resumed save |
| `Timing`, `Legend`, `Dock`, `Bar` | active and wall time, token shares and their legend, the dock's width, the proportion bar |
| `Strings`, `Wrappers` | trim, split, join and numerals; the option type |

The log is the heart of it. `LogFold.FoldStream` is the fold as the code runs it: segments, closings, a state object whose
rows are pushed one by one and one row overwritten in place at the end. `LogStream` defines the same log without any of that:
for each event, whether its line is hidden and which lines close the attempt ending there. The fold is proved equal to that
definition, and everything else is proved of the definition: which lines there are, in what order, under which keys, and how
a log changes when events are appended.

Some properties do not hold on all inputs; each is proved with the exact condition under which it does, and a concrete input
shows that the condition can fail.

- A growing log keeps its keys unless the last event was a phase and a phase follows at once, or an attempt that stopped at a
  gate is closed by what follows: the phase line, or the gate and notice lines, then disappear (`LogLaws.KeysStayPut`; inputs
  `LogCases.PhaseLineIsLost`, `LogCases.GateLineIsLost`).
- Key texts, and the keys of the grouped view, are distinct exactly when no two closed attempts bear one number
  (`LogLaws.KeysAreDistinct`, `LaneLaws.FoldedLogGroupsUnderDistinctKeys`; input `LogCases.RepeatedAttemptSharesKey`).
- An old line of a running log keeps its row unless it is the last attempt's opener and what follows fills in its start or
  the phase it resumed at, or an answer whose gate a higher answered one overtakes (`LogLaws.RowsThatChange`;
  inputs `LogCases.OpenerIsFilled`, `LogCases.AnswerIsOvertaken`).
- A printed table row is split into its cells exactly when no cell ends with a backslash: the closing pipe, or the pipe after
  the cell, is read as escaped otherwise (`MarkdownTables.SplitUndoesPrint`; input `MarkdownTables.TrailingBackslashIsLost`).
- A save leaves the trimmed draft exactly when the server stored what was sent as it was sent, the move to another org unset
  no setting that the draft lists, set and unchanged, and no setting the draft does not list stays set
  (`ProjectEdit.PatchGivesTrimmedDraft`; input `ProjectEdit.MovedOrgLosesConnection`).
- A save stopped by a refusal has not applied the settings, which are sent last. Resumed, it has exactly the refused and the
  later steps to send when what was applied was stored as it was sent and, if the org moved, the settings listed differ from
  those the move left just when they differed before (`ProjectEdit.ResumedSaveSendsTheRest`; input
  `ProjectEdit.MovedOrgLosesConnection`: the unset connection is sent with a folder that was refused).
- It sends exactly what the first patch had left when what was applied was stored as it was sent and, if the org moved, the
  move unset no listed setting that the draft emptied or left alone (`ProjectEdit.ResumedPatchIsTheRest`; input
  `ProjectEdit.MovedOrgAddsConnection`: the steps are the same, the patch carries the unset connection too).
- A terminal on screen is observed, so that it follows its container's size, exactly when it was not detached from another
  container since it was attached to this one: the code drops the observer whatever container is left
  (`TerminalRuns.WatchedUnlessLeftElsewhere`; input `TerminalRuns.LateDetachStopsFitting`).
- The active time of a job fits in its wall time exactly when the time counted past the end of attempts closed without a
  recorded duration is no more than the time nothing ran (`Timing.ActiveFitsUnlessOver`; input
  `Timing.UnrecordedDurationRunsOn`). The server at hand never sends such an attempt: it computes the duration whenever there
  is a finish (src/memory/attempts.mjs:55-56), so there the two always fit (`Timing.WallIsActiveAndIdle`); the page accepts
  one from a producer that leaves it out.

Row ids of the queue are unique (they are the store's primary keys), as are project ids; the results that need this say so.

## Model

| member | source | states |
|---|---|---|
| `LogRows.KeyTextInjective` | studio/src/lib/log-tree.ts:137-145 | two row or block keys with one text are one key, whatever the mix of event, gate, end, answer and lane keys |
| `LogRows.AttemptNumberReadsBack` | studio/src/lib/log-tree.ts:89-92 | the number of an attempt line is read back from its text, whatever follows the digits |
| `LogFold.SegmentsOf` | studio/src/lib/log-tree.ts:95-108 | the segments partition the events at each attempt event, a leading run numbered one before the attempt after it or, without one, by the history |
| `LogFold.ClosingsOf` | studio/src/lib/log-tree.ts:271-280 | closed are exactly the numbered segments another follows, and the last once the stream ended with its row finished |
| `LogFold.LatestAnsweredGate` | studio/src/lib/log-tree.ts:283-287 | the number found is the latest answered gate of the event-by-event definition |
| `LogFold.PlaceEvent` | studio/src/lib/log-tree.ts:181-197 | placing an event adds its own line or, when the definition hides it, none, and keeps lanes, last event and last answer up to date |
| `LogFold.CloseRows` | studio/src/lib/log-tree.ts:258-268 | the rows composed are those of the attempt's closing lines, in their order |
| `LogFold.MarkFinal` | studio/src/lib/log-tree.ts:304-305 | overwriting the last answer in place changes that row alone |
| `LogFold.FoldStream` | studio/src/lib/log-tree.ts:290-307 | the rows, attempt count, last event key and final key are those of the event-by-event definition |
| `LogLaws.LogIsOrdered` | studio/src/lib/log-tree.ts:296-303 | own lines are in event order, an attempt's closing lines after all its own and before the next opener |
| `LogLaws.LogIsComplete` | studio/src/lib/log-tree.ts:149-303 | a line is in the log if and only if its event is not hidden or its attempt closes with it |
| `LogLaws.LogIsDetermined` | studio/src/lib/log-tree.ts:290-307 | any ordered list of exactly those lines is the folded log |
| `LogLaws.KeysAreDistinct` | studio/src/lib/log-tree.ts:137-265 | the key texts are distinct if and only if no two closed attempts bear one number |
| `LogLaws.NumbersRise` | studio/src/lib/log-tree.ts:102-106 | with rising attempt numbers an earlier attempt's number is smaller, the inferred number of a leading run included |
| `LogLaws.RisingNumbersAreDistinct` | studio/src/lib/log-tree.ts:95-108 | with every attempt numbered and the numbers rising, closed attempts bear distinct numbers |
| `LogLaws.LogGrows` | studio/src/lib/log-tree.ts:149-303 | while the stream runs, the old lines are a prefix of the lines after more events if and only if no phase line and no gate or notice line is lost |
| `LogLaws.KeysStayPut` | studio/src/lib/log-tree.ts:149-303 | the same for the key texts the view renders by |
| `LogLaws.RowsStayTheSame` | studio/src/lib/log-tree.ts:156-307 | while no attempt is appended, every line but an attempt's opener keeps its whole row |
| `LogLaws.RowsThatChange` | studio/src/lib/log-tree.ts:137-307 | while the stream runs, whatever is appended, an old line's row changes if and only if it is the last attempt's opener and a first phase or a resumed phase fills it in, or an answer that a higher answered gate now overtakes |
| `LogLaws.LatestIsHighest` | studio/src/lib/log-tree.ts:283-287 | the latest answered gate is the highest number among the answered ones |
| `LogLaws.NoteOnHighestGate` | studio/src/lib/log-tree.ts:235-266 | an answer line is dimmed if and only if a gate of a higher attempt was answered too |
| `LogLaws.OneFinalAnswer` | studio/src/lib/log-tree.ts:195-306 | a row is final if and only if the stream ended and it is the last answer; it is the row the final key names and no other row differs |
| `LogCases.RepeatedAttemptSharesKey` | studio/src/lib/log-tree.ts:259-265 | an attempt line narrated twice before the next attempt: two closing lines under one key |
| `LogCases.PhaseLineIsLost` | studio/src/lib/log-tree.ts:149-197 | a phase line shown while the stream runs is gone once another phase follows |
| `LogCases.GateLineIsLost` | studio/src/lib/log-tree.ts:149-303 | the gate line of a running attempt is gone once the next one opens and the history says the first stopped at a gate |
| `LogCases.OpenerIsFilled` | studio/src/lib/log-tree.ts:130-147 | the first phase after an attempt line gives that line a start |
| `LogCases.AnswerIsOvertaken` | studio/src/lib/log-tree.ts:258-287 | the answer to the first attempt's gate loses its note when the second attempt, stopped at a gate too, is closed |
| `LaneGroups.GroupLanes` | studio/src/lib/log-tree.ts:323-340 | each item is the flat row at its place or the block of its lane: its head, the later rows of the lane in order, whether it ended, its latest tool call and tool count |
| `LaneLaws.GroupingKeepsEveryRow` | studio/src/lib/log-tree.ts:326-337 | every row is shown exactly as often as the log holds it |
| `LaneLaws.OneBlockPerLane` | studio/src/lib/log-tree.ts:325-335 | no two blocks are of one lane |
| `LaneLaws.GroupedKeysAreDistinct` | studio/src/lib/log-tree.ts:310-340 | grouping rows with distinct keys gives distinct keys, blocks included |
| `LaneLaws.FoldedLogGroupsUnderDistinctKeys` | studio/src/lib/log-tree.ts:290-340 | no key stands twice in the grouped view of a folded log if and only if no two closed attempts bear one number |
| `LaneGrowth.HeadsAreInPlace` | studio/src/lib/log-tree.ts:323-340 | the items stand in the order of their first rows, which are exactly the rows no earlier block takes in |
| `LaneGrowth.BlockRowsAreInPlace` | studio/src/lib/log-tree.ts:323-340 | a block's rows are those at its lane's positions after its head |
| `LaneGrowth.PositionsAreTheLanes` | studio/src/lib/log-tree.ts:323-340 | those positions ascend and are all the lane's positions |
| `LaneGrowth.RowStandsOnce` | studio/src/lib/log-tree.ts:323-340 | each row, by its place in the log, is an item of its own or stands in the block of exactly one item |
| `LaneGrowth.GroupedViewGrows` | studio/src/lib/log-tree.ts:323-340 | when rows keep their key, lane and kind and others are added, the old items come first, in place, and each old block holds its old rows first |
| `LaneGrowth.GroupedLogGrows` | studio/src/lib/log-tree.ts:290-340 | so the grouped view of a running log only grows, whatever is appended, if and only if no phase, gate or notice line is lost |
| `MarkdownTables.SplitRow` | studio/src/lib/markdown.ts:68-73 | a line that prints some cells, whatever white space around it, gives exactly those cells trimmed if and only if none ends with a backslash |
| `MarkdownTables.OneDivision` | studio/src/lib/markdown.ts:16 | the pieces a row is divided into are the only ones that make it up with every inner pipe after a backslash and no pipe between two after one |
| `MarkdownTables.UnescapeUndoesEscape` | studio/src/lib/markdown.ts:72 | reading an escaped pipe as a pipe undoes escaping the pipes, for every text |
| `MarkdownTables.SplitUndoesPrint` | studio/src/lib/markdown.ts:68-73 | splitting a printed row gives the trimmed cells if and only if no cell ends with a backslash |
| `MarkdownTables.SplitGivesCellsBack` | studio/src/lib/markdown.ts:68-73 | trimmed cells that end with no backslash come back as they were |
| `MarkdownTables.TrailingBackslashIsLost` | studio/src/lib/markdown.ts:68-73 | the one cell that is a letter and a backslash does not come back from the row it is printed on |
| `MarkdownTables.FitRow` | studio/src/lib/markdown.ts:89-91 | the fitted row has the header's width, its own cells first and empty ones after |
| `MarkdownBlocks.ReadCode` | studio/src/lib/markdown.ts:43-47 | the code block and the line after it, found by the loop, are those of the definition |
| `MarkdownBlocks.ReadList` | studio/src/lib/markdown.ts:50-58 | the same for a list, which takes at least its own line |
| `MarkdownBlocks.ReadParagraph` | studio/src/lib/markdown.ts:61-65 | the same for a paragraph |
| `MarkdownBlocks.ReadTable` | studio/src/lib/markdown.ts:94-103 | the same for a table |
| `MarkdownBlocks.NextAt` | studio/src/lib/markdown.ts:111-124 | every reader moves past the line it starts at |
| `MarkdownBlocks.Read` | studio/src/lib/markdown.ts:106-126 | the reader ends, and its blocks are those read at the start lines of the text |
| `MarkdownLaws.EveryLineIsRead` | studio/src/lib/markdown.ts:106-126 | every line that is not blank is inside the span of a block |
| `MarkdownLaws.NoLineIsReadTwice` | studio/src/lib/markdown.ts:106-126 | the spans of two blocks do not meet |
| `MarkdownLaws.LinesMakeSource` | studio/src/lib/markdown.ts:107 | the lines joined again are the source with its line breaks made one kind |
| `MarkdownLaws.RunsAreKeptApart` | studio/src/lib/markdown.ts:38-119 | two paragraphs in a row, or two lists of one kind, have a blank line between them |
| `MarkdownLaws.ModesAgreeWithoutTables` | studio/src/lib/markdown.ts:106-126 | rich and plain mode read the same blocks if and only if rich mode reads no table |
| `MarkdownLaws.NoTableStarts` | studio/src/lib/markdown.ts:81-118 | where no table starts anywhere, rich mode reads no table |
| `MarkdownLaws.TablesAreRectangular` | studio/src/lib/markdown.ts:81-103 | every row of a table block has the header's width |
| `MarkdownLaws.BlankLineCuts` | studio/src/lib/markdown.ts:106-126 | two texts with a blank line between them read as the blocks of the one and then of the other, unless the first ends inside code |
| `MarkdownPrint.BlockIsRead` | studio/src/lib/markdown.ts:31-126 | the lines a printable heading, paragraph, list, code block or table is written on are read as that block, whole |
| `MarkdownPrint.PrintedBlocksAreReadBack` | studio/src/lib/markdown.ts:106-126 | printing any list of printable blocks and reading the text gives the same blocks |
| `MarkdownInline.LinkIsWritten` | studio/src/lib/markdown.ts:18 | what the link pattern finds at the front of a text is written there |
| `MarkdownInline.MatchesAreMatches` | studio/src/lib/markdown.ts:142 | the matches are in order, disjoint, and written where they are said to be |
| `MarkdownInline.NoLinkIsMissed` | studio/src/lib/markdown.ts:142 | wherever a link is written, it is matched or lies inside a match |
| `MarkdownInline.LinkParts` | studio/src/lib/markdown.ts:139-152 | the loop splits a text into its accepted links and the text around them |
| `MarkdownInline.AcceptedLinksAreShown` | studio/src/lib/markdown.ts:139-152 | the links shown are exactly the accepted matches, in order |
| `MarkdownInline.OnlyAcceptedLinks` | studio/src/lib/markdown.ts:143-164 | no part is empty and no link has a refused target, in either mode |
| `MarkdownInline.SplittingLosesNothing` | studio/src/lib/markdown.ts:139-171 | the parts with their delimiters put back spell the line, in either mode and whatever targets are refused |
| `InlinePrint.WrittenMarkIsSpan` | studio/src/lib/markdown.ts:28 | a written code, strong or em part is found whole by the pattern, whatever follows |
| `InlinePrint.WrittenPartsComeBack` | studio/src/lib/markdown.ts:161-171 | writing parts on one line and splitting it gives the parts back |
| `InlinePrint.RichPartsComeBack` | studio/src/lib/markdown.ts:139-171 | writing parts with links among them, their targets accepted, and splitting the line in rich mode gives the parts back |
| `Terminal.TerminalController.AttachTo` | studio/src/lib/terminalController.ts:93-107 | the new state and what is done outside are those of the machine: placed, observed, connected the first time only, nothing when disposed |
| `Terminal.TerminalController.DetachFrom` | studio/src/lib/terminalController.ts:110-114 | off screen, the socket untouched |
| `Terminal.TerminalController.Reconnects` | studio/src/lib/terminalController.ts:117-120 | dials again only from a state that is neither open nor connecting |
| `Terminal.TerminalController.Disposes` | studio/src/lib/terminalController.ts:123-131 | hangs up the current socket once and forgets it |
| `Terminal.TerminalController.Connects` | studio/src/lib/terminalController.ts:151-167 | a refused dial closes the connection with its message, an answered one makes the new socket current |
| `Terminal.TerminalController.SocketOpens` | studio/src/lib/terminalController.ts:170-174 | only the current socket opens the connection, and the views are told before the pty is sent the size |
| `Terminal.TerminalController.SocketCloses` | studio/src/lib/terminalController.ts:177-184 | only the current socket of a live controller closes it: its reason is written into the terminal, then the views and the listing are told, once |
| `Terminal.Registry.ControllerFor` | studio/src/lib/terminalController.ts:211-218 | one controller per id until it is disposed, a new one never disposed |
| `Terminal.Registry.DisposeController` | studio/src/lib/terminalController.ts:221-224 | the controller is disposed and the id free again |
| `Terminal.Registry.DisposeControllersExcept` | studio/src/lib/terminalController.ts:227-229 | the entries that are not live are dropped and freed, the others are as they were; each socket of a dropped one is hung up once and nothing else is done |
| `TerminalRuns.EveryRunIsSound` | studio/src/lib/terminalController.ts:93-184 | over any run: a live controller has a socket if and only if it is connecting or open, every earlier socket is over, each closing is announced once, idle means no socket was ever created, a watched container is the one shown |
| `TerminalRuns.EveryPageIsSound` | studio/src/lib/terminalController.ts:73-90 | and so from the page's load on |
| `TerminalRuns.CallbacksAreCurrent` | studio/src/lib/terminalController.ts:170-184 | a callback that can happen is about the current socket, or finds a disposed controller and changes nothing; one of any other socket changes nothing in any state |
| `TerminalRuns.NeverIdleAgain` | studio/src/lib/terminalController.ts:106-184 | once left, idle is never entered again |
| `TerminalRuns.DisposedIsFinal` | studio/src/lib/terminalController.ts:93-184 | after dispose no run does anything outside: no socket is created or hung up, no closing announced, no other state shown, no xterm opened; disposing again at any moment changes nothing |
| `TerminalRuns.TabSwitchesNeverReconnect` | studio/src/lib/terminalController.ts:67-114 | without a reconnect no run ever creates a second socket |
| `TerminalRuns.ReconnectReopens` | studio/src/lib/terminalController.ts:117-174 | a live controller that lost its socket can be open again |
| `TerminalRuns.StaysWatchedUnlessLeftElsewhere` | studio/src/lib/terminalController.ts:93-131 | a live observed terminal stays observed by one action if and only if that is not a detach from a container other than the one it is in |
| `TerminalRuns.WatchedUnlessLeftElsewhere` | studio/src/lib/terminalController.ts:93-131 | over every run of a live terminal: it is where its last lasting attach put it, and observed there if and only if no detach from another container came after |
| `TerminalRuns.LateDetachStopsFitting` | studio/src/lib/terminalController.ts:110-114 | attached to one container and then detached from another, the terminal is on screen and observed nowhere |
| `Replica.FindChangedKeys` | src/studio/events.mjs:54-62 | the changed keys with their next value, null for a missing one, `jobs` aside |
| `Replica.SnapshotPatch` | src/studio/events.mjs:70-88 | the patch of the changed keys and rows, none when nothing changed |
| `Replica.ApplyPatch` | studio/src/lib/events.ts:17-25 | the table of rows filled, deleted from and read in order gives each ordered id its row: removed ones none, else the last upsert, else the row it had |
| `ReplicaLaws.PatchKeepsAgreement` | src/studio/events.mjs:54-88 | a copy that agrees with one read agrees with the next once patched, or at once when there is no patch |
| `ReplicaLaws.PatchOnlyWhenSomethingMoved` | src/studio/events.mjs:83-88 | no patch is made if and only if no key and no row reads differently |
| `ReplicaLaws.PatchingAgainChangesNothing` | studio/src/lib/events.ts:17-25 | applying any patch twice is applying it once |
| `ReplicaLaws.SurvivingRow` | studio/src/lib/events.ts:20-23 | a row survives a patch if and only if its id is ordered and not removed, upserted or not |
| `QueueStream.Stream.Subscribe` | src/studio/events.mjs:136-151 | a new page has the last read at once when there is one, and the poller runs |
| `QueueStream.Stream.Leave` | src/studio/events.mjs:130-149 | the last page to leave stops the timer and drops the last read |
| `QueueStream.Stream.PollSucceeds` | src/studio/events.mjs:104-128 | after a read every listening page agrees with it; a page that had the last read is sent the patch alone, or nothing when nothing changed, any other the whole read |
| `QueueStream.Stream.PollFails` | src/studio/events.mjs:117-119 | after a failed read every page says so and none changes its copy |
| `QueueStream.Stream.Close` | src/studio/events.mjs:153-157 | closing leaves no page, no read and no timer |
| `QueueStream.Client.Send` | studio/src/lib/events.ts:33-48 | what a page keeps after an event: the whole read, the patched copy, or the error beside an unchanged copy |
| `JobStream.EventsAreNarration` | studio/src/lib/events.ts:82-101 | the events are the narration batches since the last reset or meta, joined |
| `JobStream.FieldIsLastSet` | studio/src/lib/events.ts:82-101 | every other field holds what the last action that settles it carries, none when that one clears it |
| `JobStream.BatchingDoesNotMatter` | studio/src/lib/events.ts:88-89 | one batch or two leave the same state, whatever comes before and after |
| `JobStream.RestartForgets` | studio/src/lib/events.ts:84-87 | nothing before a reset or meta can be seen after it |
| `JobStream.Subscription.Arrives` | studio/src/lib/events.ts:114-129 | the source is closed if and only if a final end is shown, and the state is that of what was heard up to it |
| `JobStream.Subscription.Hears` | studio/src/lib/events.ts:119-129 | each kind of event dispatches its own action, unreadable data none |
| `JobStream.FinalEndIsShown` | studio/src/lib/events.ts:104-127 | the wire's `final` counts only when it is the boolean true |
| `LinkPlan.PlanLinksExactlyTheFresh` | studio/src/lib/integrations.ts:350-365 | the new ids have no duplicate and are exactly the checked, unlinked projects of the allowed orgs |
| `LinkPlan.SwitchingNamesAreFresh` | studio/src/lib/integrations.ts:335-363 | the names warned about are those of such projects that leave another destination |
| `LinkPlan.NotAllowedOrgs` | studio/src/lib/integrations.ts:330-360 | the orgs shown as not allowed are those of the view that own projects and are not the connection's |
| `LinkPlan.RowsAreLockedOrFree` | studio/src/lib/integrations.ts:352-362 | a group's count is its locked rows and its free ids |
| `LinkPlan.StateFromFreeIds` | studio/src/lib/integrations.ts:343-347 | the tri-state depends on which free ids are selected and nothing else |
| `LinkPlan.ToggledOrg` | studio/src/lib/integrations.ts:367-374 | the loop over the free ids adds them all or removes them all |
| `LinkPlan.ToggledProject` | studio/src/lib/integrations.ts:377-382 | one id moves, every other stays |
| `LinkPlan.ToggleMovesState` | studio/src/lib/integrations.ts:343-374 | toggling an org selects all its free projects, or none when all were |
| `LinkPlan.ToggleLeavesOthers` | studio/src/lib/integrations.ts:350-374 | toggling an org leaves every other group exactly as it was |
| `LinkPlan.ToggleTwice` | studio/src/lib/integrations.ts:367-374 | toggling twice gives the selection back if and only if it was not partial |
| `LinkPlan.LinkingSettlesThePlan` | studio/src/lib/integrations.ts:350-365 | after linking the new ids the plan has none left and as many more already linked |
| `ProjectEdit.IntegrationsDiff` | studio/src/lib/projects.ts:322-331 | the loop finds the settings that differ, the emptied ones apart |
| `ProjectEdit.BuildPatch` | studio/src/lib/projects.ts:347-354 | the patch of the changed steps, built one by one |
| `ProjectEdit.StepChanged` | studio/src/lib/projects.ts:334-344 | a step is listed if and only if the draft changes it |
| `ProjectEdit.PatchCarries` | studio/src/lib/projects.ts:347-354 | a patch carries the draft's trimmed value of each step sent and nothing of the others |
| `ProjectEdit.PatchGivesTrimmedDraft` | studio/src/lib/projects.ts:322-354 | a whole save leaves the trimmed draft if and only if the server stores what is sent as sent, the org's move unsets no listed setting left as it was, and no unlisted setting stays set |
| `ProjectEdit.EditingThenSaving` | studio/src/lib/projects.ts:316-354 | from a project's own draft, after any edits, the same without the last condition: no unlisted setting is left |
| `ProjectEdit.RefusedSaveCoversSteps` | studio/src/lib/projects.ts:367-373 | applied, refused and unapplied make up the steps in order if and only if the server lists as applied the steps before the refused one and no later one |
| `ProjectEdit.ResumedSaveSendsTheRest` | studio/src/components/settings/projects/EditProjectDrawer.tsx:93-103 | against the new baseline exactly the refused and the later steps are changed, if and only if what was applied is stored as sent and, once the org moved, the settings differ just when they did before |
| `ProjectEdit.ResumedPatchIsTheRest` | studio/src/components/settings/projects/EditProjectDrawer.tsx:84-103 | against the new baseline the patch is exactly what the first one had left, if and only if what was applied is stored as sent and the move unset no listed setting that was emptied or left alone |
| `ProjectEdit.SettingsLeft` | src/studio/projects.mjs:307-324 | the settings the move and the diff leave are the draft's if and only if none is stored otherwise, none listed is lost by the move, and none unlisted stays set |
| `ProjectEdit.MovedOrgLosesConnection` | src/studio/projects.mjs:307-345 | an org that does not use the project's connection and a folder that is refused: the resumed save sends the folder and the connection |
| `ProjectEdit.MovedOrgAddsConnection` | src/studio/projects.mjs:307-345 | the same move with another setting changed and refused: the resumed save has the same step but carries the connection too |
| `Timing.ActiveFitsUnlessOver` | studio/src/lib/format.ts:46-68 | for every history in order, wall time is active time plus the time nothing ran less the time counted past unrecorded ends, and active time fits in it if and only if the latter is no more than the idle time |
| `Timing.WallIsActiveAndIdle` | studio/src/lib/format.ts:46-68 | with every duration recorded, wall time is active time plus the time nothing ran, which is never negative |
| `Timing.LastEndIsGreatest` | studio/src/lib/format.ts:65-67 | the greatest end of attempts in order is the last one's |
| `Timing.UnrecordedDurationRunsOn` | studio/src/lib/format.ts:46-50 | an attempt of one second without a recorded duration counts five seconds active four seconds after its end |
| `Legend.SharesAreOne` | studio/src/lib/track.ts:76-83 | shares are positive and add up to exactly one when any phase spent tokens |
| `Legend.LegendIsTopOfShares` | studio/src/lib/track.ts:86-89 | as many entries as the limit allows, in ascending phase order, each before every one left out |
| `Legend.OnlyOneOrder` | studio/src/lib/track.ts:87-88 | with distinct numbers either order has one sorted list, so the sort used does not matter |
| `Dock.ClampIsStable` | studio/src/lib/dock-geometry.ts:6-10 | clamping is idempotent, within the viewport, and at least the minimum when that fits |
| `Dock.ClampIsMonotone` | studio/src/lib/dock-geometry.ts:6-10 | a wider wish or viewport never gives a narrower dock |
| `Dock.DockStore.Resize` | studio/src/lib/dock.ts:79-82 | the dragged width, clamped, becomes both the chosen and the rendered one |
| `Dock.DockStore.Save` | studio/src/lib/dock.ts:85-87 | what is saved is the chosen width |
| `Dock.DockStore.FitToWindow` | studio/src/lib/dock.ts:90-93 | the rendered width is the clamp of the chosen one, told only when it changed |
| `Dock.DockStore.WindowResized` | studio/src/lib/dock.ts:90-101 | the dock follows the window only while someone is subscribed |
| `Dock.DockStore.SubscribeView` | studio/src/lib/dock.ts:96-102 | the first subscriber finds the dock fitted |
| `Dock.EveryRunKeepsFit` | studio/src/lib/dock.ts:52-106 | over any run, while anyone is subscribed the rendered width is the clamp of the chosen one |
| `Dock.SavedWidthWasChosen` | studio/src/lib/dock.ts:79-93 | the chosen and the saved width are only ever one loaded or one dragged to |
| `Dock.RestoringTheWindowRestoresTheWidth` | studio/src/lib/dock.ts:84-106 | shrinking the window and restoring it gives the width back |
| `Bar.BarsFillTheWidth` | studio/src/lib/files.ts:43-52 | for positive counts both bars and the gap fill the width, and both are drawn if and only if it leaves room |
| `Bar.BarIsMonotone` | studio/src/lib/files.ts:49-51 | more additions never shrink the additions bar |
| `Bar.BarIsAccurate` | studio/src/lib/files.ts:49-51 | the additions bar misses its exact share of the room by less than a pixel |

## Left out

- LogFold.FoldStream: composed texts are kept as the values their templates are filled with; formatting durations, token counts, costs and dates into them is not modelled, instants are milliseconds already parsed, an attempt's tokens are already summed, and wire fields no rule reads are dropped.
- LogRows.KeyTextInjective: attempt numbers are unbounded integers, not doubles, so the texts of very large numbers are exact.
- LaneGroups.GroupLanes: the rows grouped are values; the view shares the row objects of the fold, which grouping only reads.
- MarkdownBlocks.Read: what a line opens is worked out once, when the text is cut into lines, and the readers consult it; it depends on the line alone, so the blocks are the same.
- MarkdownInline.LinkParts: whether a target parses as a web address is a parameter, and lengths count characters where the runtime counts UTF-16 units, which matters only to links near the length limits.
- InlinePrint.RichPartsComeBack: the captions and targets written are free of marks and the plain text is free of opening brackets; lines with stray brackets, or with marks inside a link, are split by the model but not printed.
- MarkdownPrint.PrintedBlocksAreReadBack: the printer writes each paragraph on one line and each list with one marker; continuation lines, deeper indentation and other markers are read by the model but not printed.
- Terminal.TerminalController.Connects: bytes, the columns and rows of a size frame, the size frames sent when the xterm is resized, fonts and focus are not modelled; a socket is its identity, and listeners do not call back into the controller while they are told.
- Terminal.Registry.DisposeControllersExcept: the controllers are disposed in some order, listed in the result, which need not be the order they were created in.
- QueueStream.Stream.PollSucceeds: a page is taken to receive what was sent to it in order; keep-alive comments, broken responses and reconnection timing are not modelled, and the server always sends the row list.
- Replica.SnapshotPatch: values are compared as values, not by the text of their JSON, so a mere change of key order inside one is no change here.
- JobStream.Subscription.Arrives: a subscription is one connection; a new job reference starts another.
- ProjectEdit.EditingThenSaving: what the server makes of a key, a folder or a setting's text (it normalises the one, resolves the other, parses the third) and which connections an org does not use are parameters, as is the text the runtime reads back for a stored setting; the drawer's org is one of those offered, so it is never in need of trimming.
- ProjectEdit.IntegrationsDiff: the emptied settings are a set, their order in the request is not modelled.
- Dock.ClampIsStable: seven tenths of the viewport is exact, where the runtime multiplies doubles and may round a half the other way; none of the properties depends on it. Saving the open state always succeeds here.
- Bar.BarIsAccurate: counts and widths are integers and the division is exact.
- Legend.SharesAreOne: shares are exact real numbers; with doubles the sum is one up to rounding.
- Timing.WallIsActiveAndIdle: durations are whole seconds.
- React components, hooks, routing, the query cache, label texts, network calls, storage and the DOM.
- The normalisers of server answers, `agoLabel`, `usdLabel` and the other label functions: field by field, without a law of their own.
- `tracker.ts`, `queue.ts`, `addJobForm.ts`, `toast.ts`, `useAction.ts`: small and without properties that span operations.
- The remaining server side (queue runner, narration, artifacts, stores).
