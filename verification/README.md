# Verification of FailproofAI's stateful core

This project models, in Dafny, the parts of FailproofAI whose correctness depends on history,
interleaving or byte-level format, and proves what they promise:

* the portable SQLite reader that rebuilds a database image from the main file and a live write-ahead
  log (`WalSums`, `WalFrames`, `WalWriter`, `WalImage`, `WalExact`, `WalRegrowth`, `WalReader`,
  `SnapshotProtocol`);
* the Hermes plugin's delivery of instruct verdicts: call frames, the handoff table, the per-turn record
  and the persistent ledger (`Deliveries`, `Handoff`, `HandoffExact`, `ReminderFrames`, `Reminders`,
  `ReminderRuns`, `ReminderResults`, `ReminderAnswers`, `ReminderTwice`, `Ledger`, `LedgerAnswers`);
* the event machines: the dashboard start watcher with its line filters, the daemon request and its
  framing, the coalescing cache, the worker pool (`LogFilters`, `LaunchWatch`, `LaunchOutcome`,
  `DaemonFrames`, `HookRequest`, `RuntimeCache`, `BatchAll`);
* the algorithms with a declarative meaning: pairing tool calls with results, version ordering, PEP 440
  normalisation and succession, the version file, the project tree (`Pairing`, `PairingMeaning`, `Semver`,
  `SemverExact`, `PythonVersion`, `PythonSpelling`, `PythonExact`, `VersionFile`, `VersionScan`,
  `ProjectTree`, `TreeRows`, `TreeNames`).

`Bytes` holds the byte and word arithmetic that both wire formats share.

Code that changes state step by step is modelled by classes and loops. Each method is proved equal to a
function on values, and what the code promises is proved about that function, over all runs where threads
or callbacks interleave: one lock section, or one synchronous stretch between two waits, is one step. What
these functions come to is also said without them, of the inputs alone.

`dafny verify dfyconfig.toml` checks everything.

## Where the code and its description part

* `runtimeCache` is described as evicting the least recently used entry. It evicts in insertion order
  (`RuntimeCache.EvictsTheFirst`, `RuntimeCache.CacheIsInInsertionOrder`). The two agree on a full cache
  exactly when no other held key was passed by the first one, which is to say that the first key was not
  hit or refreshed since the other came in, unless the other was used again after that
  (`RuntimeCache.DropsLeastRecentlyUsedUnlessPassed`); `RuntimeCache.TheLastUsedCanGo` is a history from
  an empty cache in which the entry used last goes. Refreshing a key in a full cache evicts another one
  (`RuntimeCache.RefreshEvictsAnother`).
* The one-pass overlay equals applying the transactions one at a time unless a commit cut bytes off that a
  later commit brought back without writing them; `WalImage.OnePassVersusReplay` gives the condition on
  the bytes, `WalRegrowth.HeadersDecideAgreement` the one on the frame headers alone, and
  `WalRegrowth.RegrownPageResurfaces` a log for every main file.
* `_remind` answers that the reminder will be carried even when the call's own frame closes between its
  check and its add (`ReminderResults.OwnReminderCanMissItsFrame`, a run from the start). A reminder put
  aside after its call's last look is also answered as carried, and waits until it lapses.
  `ReminderResults.RemindAnswers` says for every run where a reminder is after either answer, and that
  this one interleaving is the only way a call's own reminder misses its frame.
* A reminder skipped because another call of the turn claimed it reaches a result only if that other
  result can carry one; if not, both calls have lost it (`ReminderResults.SkippedFollowsItsClaimant`).
* At most one result of a turn is to carry a reminder. Two can once the limit has pushed its key off the
  record: because that happened between their claims, or because it happened before and a third call,
  which had claimed the reminder earlier, gave it back in between, which takes the key off the record
  although another call's result carries it (`ReminderResults.NoReminderTwice`). A run of the second
  kind is `ReminderTwice.GivenTwiceAfterARelease`.
* Turns in the ledger are independent while no request of another turn reads a clock ahead of the turn's
  next request (`Ledger.TurnsDoNotInterfere`), so always with a forward clock
  (`Ledger.ForwardClockSeparatesTurns`). For a turn whose own requests are in order of time and whose
  session is not cleared the condition is exact (`Ledger.TurnsAreIndependentExactly`);
  `Ledger.SteppedBackClockInterferes` is a family of runs that break it.
* `compareSemver` orders versions and orders other strings, but not the two together
  (`Semver.OrderOnVersions`, `Semver.OrderOnOtherStrings`, `Semver.MixedStringsCanCycle`): two versions
  and another string are ordered exactly when the string never lies between the versions, as text,
  against their own order (`Semver.MixedStringsOrderedExactly`).
* `batchAll` with a concurrency below one returns without starting any task
  (`BatchAll.FinishedBatchIsTheTasks`, `BatchAll.NothingRuns`).
* Two file-system projects of one name leave one row in the project tree, so the top-level counts then
  fall short (`ProjectTree.RootsCountEveryProject`).

## Model

| member | source | states |
|---|---|---|
| `WalSums.WalChecksum` | lib/sqlite-reader.ts:99-115 | the loop computes the two-word sum of the given range from any starting sum in either byte order, which is its Fibonacci-weighted closed form |
| `WalSums.SumIsFibonacci` | lib/sqlite-reader.ts:107-113 | over whole blocks of n words both halves are sums of all words before them, each weighted by the Fibonacci number of its distance from the end, modulo 2^32; words are spelt out of their bytes |
| `WalSums.SumConcat` | lib/sqlite-reader.ts:107-113 | the sum composes over concatenation at 8-byte blocks (SQLite file format, section 4.2) |
| `Bytes.WrapIsMod` | lib/sqlite-reader.ts:111-112 | the unsigned truncation is the remainder modulo 2^32 |
| `WalReader.SqlitePageSize` | lib/sqlite-reader.ts:89-97 | the page size is read exactly for files with the magic string and a power of two from 512 to 65536, 1 standing for 65536 |
| `WalFrames.PageSizeBitTest` | lib/sqlite-reader.ts:94 | in range, a size that shares no bit with its predecessor is exactly an admitted power of two |
| `Bytes.SharesNoBit` | lib/sqlite-reader.ts:94 | the bit test holds exactly at the powers of two |
| `WalReader.ReadHeader` | lib/sqlite-reader.ts:122-135 | the header is accepted exactly when magic, version, page size and checksum agree, and gives the sum to continue from |
| `WalReader.ScanFrame` | lib/sqlite-reader.ts:142-159 | one frame is accepted exactly when its page number, salts and chained checksum hold |
| `WalReader.ScanFrames` | lib/sqlite-reader.ts:138-164 | the scan finds exactly the committed part of the accepted frames |
| `WalFrames.ChainIsOneChecksum` | lib/sqlite-reader.ts:129-152 | the header and frame sums chained one after another equal one sum over all covered bytes |
| `WalFrames.ValidFramesAreLongestPrefix` | lib/sqlite-reader.ts:141-158 | the accepted frames are exactly the longest valid run: each valid under the one running checksum, the next not |
| `WalFrames.CommittedPrefixUnique` | lib/sqlite-reader.ts:160-166 | the committed part ends with the last commit frame and is the only prefix that does |
| `WalWriter.WriterRoundTrip` | lib/sqlite-reader.ts:118-164 | a log written to section 4.2 of the SQLite file format is accepted frame for frame, whatever stale bytes follow |
| `WalWriter.CutKeepsWholeFrames` | lib/sqlite-reader.ts:137-158 | cutting the log at any byte keeps exactly the accepted frames wholly before the cut |
| `WalReader.CopyBytes` | lib/sqlite-reader.ts:174-184 | a typed-array copy writes the given range and nothing else |
| `WalReader.OverlayFrame` | lib/sqlite-reader.ts:176-184 | one frame overwrites exactly its page, or nothing when the page starts past the end; no copy leaves the array |
| `WalReader.OverlayFrames` | lib/sqlite-reader.ts:175-185 | the loop leaves the image of all committed frames over the main file |
| `WalReader.ApplyCommittedWal` | lib/sqlite-reader.ts:118-187 | the result is the committed image: the main file unless header, commit and guard allow the overlay |
| `WalExact.PageSizeExactly` | lib/sqlite-reader.ts:89-97 | the page size, byte by byte |
| `WalExact.HeaderExactly` | lib/sqlite-reader.ts:122-132 | a header counts exactly with one of the two magic numbers, the version, the main file's page size and the checksum of its first 24 bytes |
| `WalExact.GuardExactly` | lib/sqlite-reader.ts:167-171 | the image may have at most the main file's length and one page for every whole frame, and an exact length |
| `WalExact.ImageExactly` | lib/sqlite-reader.ts:118-187 | the main file is used as it is unless page size, header, a commit and the guard allow the overlay |
| `WalExact.ImageIsNoLonger` | lib/sqlite-reader.ts:168-171 | no log asks for more than the main file's length and its own |
| `WalImage.EachPageIsItsLastFrame` | lib/sqlite-reader.ts:166-186 | each page is the last committed frame for it, else the main file's page, else zeros (section 4.4) |
| `WalImage.OnePassVersusReplay` | lib/sqlite-reader.ts:173-186 | one pass equals transaction-by-transaction replay if and only if the bytes a commit cut off, and no frame rewrote, are zero |
| `WalImage.OnePassIsReplay` | lib/sqlite-reader.ts:173-186 | and so whenever every growing transaction writes the pages it adds |
| `WalRegrowth.HeadersDecideAgreement` | lib/sqlite-reader.ts:173-186 | over all main files and page contents, one pass equals the replay if and only if, by the frame headers, no page of the final database was cut off by an earlier commit and not written again |
| `WalRegrowth.RegrownPageResurfaces` | lib/sqlite-reader.ts:118-187 | for every readable main file of 512-byte pages, a log written to the format whose image differs from the replay |
| `SnapshotProtocol.GuardAllowsRealGrowth` | lib/sqlite-reader.ts:168-171 | the allocation guard never rejects a log that writes every page it adds |
| `SnapshotProtocol.TornAppendIsInvisible` | lib/sqlite-reader.ts:128-171 | with the log cut at any byte, the image is the main file or exactly that of the last whole commit |
| `SnapshotProtocol.AppendingCommits` | lib/sqlite-reader.ts:189-194 | a writer that appends one more encoded transaction has committed it, whatever stale bytes lie behind the log before and after |
| `SnapshotProtocol.TornAppendTouches` | lib/sqlite-reader.ts:189-194 | any part of that append, over any stale bytes, has not |
| `SnapshotProtocol.NewSaltsReset` | lib/sqlite-reader.ts:145-147 | a header with new salts over the old frames starts a checkpointed log over |
| `SnapshotProtocol.NoFrameHere` | lib/sqlite-reader.ts:137-147 | bytes too short for a frame, or with another first salt, hold no frame |
| `SnapshotProtocol.WriterKeepsConsistent` | lib/sqlite-reader.ts:189-194 | commit, partial checkpoint, trim and reset each keep main file plus log equal to the committed database (section 4.3) |
| `SnapshotProtocol.CheckpointCanFinish` | lib/sqlite-reader.ts:189-194 | every checkpoint can be completed, so resets are reachable |
| `SnapshotProtocol.ImageIsCommitted` | lib/sqlite-reader.ts:213 | the image built from a consistent disk is the committed database |
| `SnapshotProtocol.SnapshotIsTheCommittedDatabase` | lib/sqlite-reader.ts:195-216 | in every interleaving, a returned snapshot is the committed database at the instant the log was read |
| `SnapshotProtocol.DatabaseWithoutLogIsConsistent` | lib/sqlite-reader.ts:207-208 | a checkpointed database with no log is a place runs can begin |
| `SnapshotProtocol.UndisturbedReadReturns` | lib/sqlite-reader.ts:195-216 | from any consistent disk a reader left alone returns the committed database at its first attempt |
| `SnapshotProtocol.GivingUpMeansThreeChanges` | lib/sqlite-reader.ts:197-215 | the reader gives up only if in each of its three attempts there was a write that changed the main file |
| `SnapshotProtocol.AtMostThreeAttempts` | lib/sqlite-reader.ts:197 | the reader never makes a fourth attempt |
| `SnapshotProtocol.LogIsReadAfterTheCheck` | lib/sqlite-reader.ts:198-206 | it goes on to the log only after reading the whole main file and finding its version unchanged |
| `Ledger.InstructionLedger.Decide` | hermes-plugin/ledger.py:88-181 | one request changes the rows and answers exactly as purge, lookup, cap and insert prescribe; without ids or storage nothing changes |
| `Ledger.InstructionLedger.ClearSession` | hermes-plugin/ledger.py:183-193 | exactly the session's rows go |
| `LedgerAnswers.OneDeliveryExactly` | hermes-plugin/ledger.py:101-108 | requests are about one delivery exactly when profile, session, task, turn, policies in any order, reason and scope agree |
| `LedgerAnswers.OneRequestExactly` | hermes-plugin/ledger.py:110-179 | a delivery not live is issued and holds the call if and only if its turn has fewer live ones than the cap; a live one holds exactly the request it was issued for; of the others exactly the live ones stay |
| `LedgerAnswers.SpanAnswersExactly` | hermes-plugin/ledger.py:88-181 | every answer of a span, from any table with nothing of the turn live: the first `max_rounds` distinct deliveries asked about are issued to the first request that asks, hold it until another asks, and are acknowledged then; all others meet the cap |
| `LedgerAnswers.FirstDeliveriesHold` | hermes-plugin/ledger.py:88-181 | the deliveries of the turn that ever hold a call in the span are exactly those |
| `LedgerAnswers.ClearExactly` | hermes-plugin/ledger.py:183-193 | clearing a session takes exactly its deliveries |
| `Ledger.RowsAfterRequest` | hermes-plugin/ledger.py:115-179 | a row afterwards is one from before, acknowledged or not, or the one issued; live rows survive; a held request is the row's |
| `Ledger.CapIsKeptThroughout` | hermes-plugin/ledger.py:144-155 | in every run a turn never has more rows than the cap, if it had no more to begin with |
| `Ledger.BoundedInterruption` | hermes-plugin/ledger.py:88-181 | from any table, within one time to live and without a clear, one turn is blocked for at most `max_rounds` distinct requests beyond its rows live at the start |
| `Ledger.OneRequestPerDelivery` | hermes-plugin/ledger.py:127-142 | a live delivery blocks a request if and only if it was issued for that request and no other request has asked about it before; any other request goes through and acknowledges it |
| `Ledger.AcknowledgedNeverHolds` | hermes-plugin/ledger.py:127-142 | an acknowledged live delivery never blocks again |
| `Ledger.TurnsDoNotInterfere` | hermes-plugin/ledger.py:115-155 | the answers in one turn are those of a run without the other turns, while none of their requests is ahead of the turn's next one |
| `Ledger.ForwardClockSeparatesTurns` | hermes-plugin/ledger.py:115-155 | and so always with a clock that never steps back |
| `Ledger.NeverAheadMeaning` | hermes-plugin/ledger.py:115-118 | the condition, in terms of pairs of events |
| `Ledger.TurnsAreIndependentExactly` | hermes-plugin/ledger.py:115-155 | for a turn with its own requests in time order and no clear, that condition is exactly when the answers agree over all initial tables, and exactly when they agree over the tables the ledger can have written |
| `Ledger.SteppedBackClockInterferes` | hermes-plugin/ledger.py:115-118 | with a clock that steps back another turn can change an answer |
| `Deliveries.TurnDeliveries.MarkLocked` | hermes-plugin/__init__.py:409-415 | marking moves keys to the newest end and trims the oldest |
| `Deliveries.TurnDeliveries.Claim` | hermes-plugin/__init__.py:417-425 | the unseen reminders are returned and marked in one step; without ids all are returned and nothing is marked |
| `Deliveries.FreshKeepsOrder` | hermes-plugin/__init__.py:423 | the unseen reminders come in the order they were collected |
| `Deliveries.OutsideATurn` | hermes-plugin/__init__.py:417-433 | without a session or a turn everything is handed out and nothing is kept on record |
| `Deliveries.TurnDeliveries.Release` | hermes-plugin/__init__.py:427-433 | exactly the given keys go |
| `Deliveries.ApplyIsTheClass` | hermes-plugin/__init__.py:417-433 | the record with its history moves as the class does |
| `Deliveries.ApplyOk` | hermes-plugin/__init__.py:382-433 | every operation keeps the record in order: a key is pushed out only after at least `limit` other keys were marked since its own mark |
| `Deliveries.RecordIsBounded` | hermes-plugin/__init__.py:409-415 | after every sequence of operations the record is within its limit |
| `ReminderRuns.RunRecordIsBounded` | hermes-plugin/__init__.py:409-415 | and so throughout every interleaving of calls and checks |
| `Deliveries.AtMostOncePerTurn` | hermes-plugin/__init__.py:417-433 | a reminder is handed out twice in a turn only after a release or such an eviction |
| `Deliveries.ClaimMembers` | hermes-plugin/__init__.py:417-425 | a claim adds only the keys it hands out and loses a key only by eviction |
| `Deliveries.ReleaseMembers` | hermes-plugin/__init__.py:427-433 | a release removes exactly its keys and evicts none |
| `Handoff.ReminderHandoff.PutReminder` | hermes-plugin/__init__.py:307-315 | a put keeps what was under the key, restarts its time and drops expired and excess entries |
| `Handoff.ReminderHandoff.TakeReminders` | hermes-plugin/__init__.py:317-324 | a take empties the key and returns its reminders unless they are past their time |
| `Handoff.ReminderHandoff.Expire` | hermes-plugin/__init__.py:301-305 | expired entries go, then the oldest until there is room |
| `HandoffExact.PutExactly` | hermes-plugin/__init__.py:301-315 | entry by entry: the key's own comes last with the present time and what waited, whatever its age; of the others those past a minute go, and then the oldest until 255 are left |
| `HandoffExact.TakeExactly` | hermes-plugin/__init__.py:317-324 | entry by entry: exactly the key's entry goes, and is handed over unless it waited more than a minute |
| `Handoff.StepOk` | hermes-plugin/__init__.py:292-324 | every operation keeps the account of where each put is, and at most 256 entries |
| `Handoff.TakeHandsOverItsPuts` | hermes-plugin/__init__.py:317-324 | a take returns exactly the reminders of the puts that move to it, each once |
| `Handoff.TakenAtMostOnce` | hermes-plugin/__init__.py:317-324 | a put once taken or lapsed stays so |
| `Handoff.LapseHasACause` | hermes-plugin/__init__.py:301-324 | a put lapses only past its time, by the call's own later verdict, or in a full table |
| `ReminderFrames.ReminderFrame.OwnsCheck` | hermes-plugin/__init__.py:265-274 | only the first check naming the open frame's call is its own |
| `ReminderFrames.ReminderFrame.AddAll` | hermes-plugin/__init__.py:276-284 | an add is kept without duplicates, or refused once the frame is closed |
| `ReminderFrames.ReminderFrame.Close` | hermes-plugin/__init__.py:286-289 | closing returns the reminders as they stand |
| `ReminderRuns.InvStep` | hermes-plugin/__init__.py:798-908 | every step of every thread keeps calls, table and record in order |
| `ReminderResults.ReminderConservation` | hermes-plugin/__init__.py:868-908 | each reminder a finished call closed with has the end its outcome allows: the call raised; its result was not executed; it is in the parent's frame; it is shown or counted in a result that can carry it; its claim is off the record again because the result could not; or another call of the turn carried it when this one claimed |
| `ReminderResults.SkippedFollowsItsClaimant` | hermes-plugin/__init__.py:885-908 | a reminder skipped that way is in the other call's result exactly when that result can carry one, and never in the skipper's |
| `ReminderResults.OpenParentTakes` | hermes-plugin/__init__.py:896-900 | an executed call's reminders go to its parent's frame exactly when the parent takes them, and are claimed otherwise |
| `ReminderResults.AddIsKeptOrRefused` | hermes-plugin/__init__.py:276-289 | an add to an open frame is in its tuple from then on; one to a closed frame changes no call |
| `ReminderResults.HandoffReachesOneCall` | hermes-plugin/__init__.py:856-876 | a handed-off reminder once taken stays with that call for the rest of the run, and is in the tuple it closes with |
| `ReminderResults.LookDelivers` | hermes-plugin/__init__.py:856-876 | a reminder waiting under a call's key, unexpired, at either of the call's looks is in the tuple the call closes with |
| `ReminderResults.RemindAnswers` | hermes-plugin/__init__.py:798-830 | at any time after `_remind` answered: false only where nothing wraps the execution; true means the call's own frame has it if and only if the frame did not close in between or had it already, or it was put aside and waits, was taken, or lapsed for a named cause |
| `ReminderAnswers.BeginMoment` | hermes-plugin/__init__.py:793-797 | a check has the innermost frame exactly if that was open when it began |
| `ReminderAnswers.OwnIsTheFirstByName` | hermes-plugin/__init__.py:265-274 | in every run a frame is a check's own exactly if it is open, names its tool and call id, and no check asked so by name before |
| `ReminderAnswers.OuterCallCarriesItToo` | hermes-plugin/__init__.py:820-829 | a reminder put aside for a call without an id inside an open frame is also added to that frame, and is in it from then on if and only if it was still open; any other is put aside and nothing more |
| `ReminderAnswers.PutAsideForItsCall` | hermes-plugin/__init__.py:820-824 | a reminder put aside waits under its call's key and only a call of that key ever takes it |
| `ReminderAnswers.OtherVerdictDiscards` | hermes-plugin/__init__.py:784-790 | another verdict on the call discards what waits under its key, and nothing else |
| `ReminderAnswers.ChecksFinish` | hermes-plugin/__init__.py:798-830 | no check is ever stuck: three steps answer it |
| `ReminderResults.CallsFinish` | hermes-plugin/__init__.py:856-908 | no call is ever stuck: its next step is enabled in every state and brings it nearer its end |
| `ReminderResults.NoReminderTwice` | hermes-plugin/__init__.py:417-433 | when two results of one turn carry the same reminder, its key was pushed off the record before the second of their claims, by at least `limit` others handed out since its own; and between the two claims it was pushed out, with at least `limit` other keys handed out there, or given back by another call that carried it |
| `ReminderTwice.GivenTwiceAfterARelease` | hermes-plugin/__init__.py:417-433 | a run from the start of the second kind: nothing pushes the key out between the two claims |
| `ReminderResults.OwnReminderCanMissItsFrame` | hermes-plugin/__init__.py:814-817 | a run from the start in which a call's own check is told its reminder is carried, and no frame or table ever has it |
| `LogFilters.SkewFilter.Keeps` | scripts/skew-log-filter.ts:23-46 | the filter's state and verdict for each line |
| `LogFilters.DroppedExactlyInABlock` | scripts/skew-log-filter.ts:23-46 | a line is dropped exactly when an unbroken run of block lines leads back to a head |
| `LogFilters.SkewPassesExactly` | scripts/skew-log-filter.ts:23-46 | a line passes exactly when no such run ends with it |
| `LogFilters.StartupFilter.Keeps` | scripts/skew-log-filter.ts:71-88 | the filter's state, verdict and readiness call for each line |
| `LogFilters.ReadyIsCalledOnce` | scripts/skew-log-filter.ts:80-84 | readiness is reported once, and exactly when a ready line came |
| `LogFilters.StartupPassesExactly` | scripts/skew-log-filter.ts:71-88 | noise never passes; a ready line or a banner only after the first ready line |
| `LaunchWatch.Watcher.Release` | scripts/launch-ready.ts:87-92 | the held lines are written in order, stderr lines left out on request, and nothing is held any more |
| `LaunchWatch.Watcher.Conclude` | scripts/launch-ready.ts:94-112 | deciding stops the timers, reports once, and releases before a failure and after anything else |
| `LaunchWatch.Watcher.OnLine` | scripts/launch-ready.ts:118-126 | one line through both filters into the buffer or its sink |
| `LaunchWatch.Watcher.Finish` | scripts/launch-ready.ts:157-172 | the first end of the process is an exit report or a failed start |
| `LaunchWatch.Watcher.ProbeOnce` | scripts/launch-ready.ts:132-149 | a due probe starts one attempt or one new timer |
| `LaunchWatch.Watcher.OnProbeAnswer` | scripts/launch-ready.ts:144-148 | an answer decides the start or arms the next probe |
| `LaunchWatch.KeptLinesAreWrittenOnce` | scripts/launch-ready.ts:87-126 | in every run lines written plus lines held are the lines kept, once each in arrival order, except exactly the stderr lines held at a port-in-use failure; at most 2,000 are held |
| `LaunchWatch.ReportedOnceThenExited` | scripts/launch-ready.ts:94-172 | the outcome is reported at most once and first; the exit at most once, later, and never after a failure |
| `LaunchWatch.ScreenOpensTheOutput` | scripts/launch-ready.ts:94-112 | a start that came up or was given up on while everything was held is reported ahead of all output; a failure after all output so far, without its held stderr when a port was in use |
| `LaunchWatch.TimersNeverLapse` | scripts/launch-ready.ts:77-151 | until the decision the deadline is armed and exactly one probe timer or attempt exists; afterwards no probe timer and no deadline is left |
| `LaunchWatch.DeadlineDecides` | scripts/launch-ready.ts:151 | the deadline decides any start still open |
| `LaunchOutcome.DecidedExactly` | scripts/launch-ready.ts:94-172 | an open start is decided exactly by a ready line of stdout outside skew blocks, a probe under way answered yes, the deadline, or an end of the process, and the report says just that, with the code, error, port or cause |
| `LaunchOutcome.ExitExactly` | scripts/launch-ready.ts:156-172 | after the decision the first end of the process is reported with its code or error, and no later one |
| `LaunchOutcome.ProbesGoOn` | scripts/launch-ready.ts:132-150 | until the decision a due probe is attempted, or scheduled again if it throws, as is one answered no |
| `LaunchOutcome.OnlyStderrIsLeftOut` | scripts/launch-ready.ts:87-92 | what a port in use leaves out is all of the held stderr and none of stdout |
| `LaunchWatch.OutputIsFiltered` | scripts/launch-ready.ts:114-130 | what reaches the output is what the filters pass, stream by stream; after the deadline gave a start up, stdout gets everything the skew filter passes |
| `LaunchWatch.CloseReportsTheCause` | scripts/launch-ready.ts:157-172 | a close before the decision is a failure on a port in use exactly when one of the first 2,000 kept lines says so |
| `DaemonFrames.DecodeInvertsEncode` | openclaw-plugin/daemon-client.js:220-230 | decoding an encoded body returns it whatever follows, and no proper part of it decodes |
| `DaemonFrames.DecodesExactly` | openclaw-plugin/daemon-client.js:220-230 | what bytes decode to by their own count: four length bytes, at most 16 MiB, then that many |
| `DaemonFrames.DecisionIsFinal` | openclaw-plugin/daemon-client.js:220-230 | a decoding once made does not change with later bytes |
| `DaemonFrames.Socket.Recv` | hermes-plugin/client.py:54-58 | a receive takes some of what has arrived, in order |
| `DaemonFrames.Socket.ReadExact` | hermes-plugin/client.py:49-62 | exactly the next `length` bytes are returned, however they are cut up, or the reason why they cannot be |
| `DaemonFrames.Socket.ReadReply` | hermes-plugin/client.py:117-120 | header and body reads give the decoding of the whole stream, or the reason it is incomplete |
| `HookRequest.PermissionNeedsACompleteReply` | openclaw-plugin/daemon-client.js:81-136 | a reply permits the call if and only if it is a complete successful hook result whose output is blank or a valid allow |
| `HookRequest.ReplyMeansExactly` | openclaw-plugin/daemon-client.js:81-136 | for every reply and verdict: the verdict is reported word for word if and only if the reply reports success and prints it well formed, or prints nothing and it is the allow; and which failure every other reply is |
| `HookRequest.BodyMeansExactly` | openclaw-plugin/daemon-client.js:231-238 | the same of a reply body, with the oversized mark; one that does not parse is invalid |
| `HookRequest.Exchange.OnData` | openclaw-plugin/daemon-client.js:220-238 | a chunk is appended and settles the request exactly when the bytes so far decide it |
| `HookRequest.Exchange.OnConnect` | openclaw-plugin/daemon-client.js:209-219 | connecting sends the framed body and restarts the timer |
| `HookRequest.Exchange.Finish` | openclaw-plugin/daemon-client.js:193-199 | only the first outcome is kept |
| `HookRequest.SettlesOnce` | openclaw-plugin/daemon-client.js:188-253 | over every order of events the request settles at most once, and has settled after any error, close or live timeout |
| `HookRequest.FirstDecidingEvent` | openclaw-plugin/daemon-client.js:188-253 | the outcome is that of the first error, close, expiry or completed frame, the first three by whether the connection was made before; without one nothing is reported |
| `HookRequest.RefusedAtOnce` | openclaw-plugin/daemon-client.js:176-208 | a request that cannot be framed or sent is refused at once, by its reason |
| `HookRequest.CutsDoNotMatter` | openclaw-plugin/daemon-client.js:220-238 | in any run the reply cut into chunks anywhere leaves the same state as the reply in one piece |
| `HookRequest.VerdictExactlyFromAFrame` | openclaw-plugin/daemon-client.js:188-253 | a verdict is reported if and only if a complete validated frame came before any error, close or timeout |
| `HookRequest.RequestArrives` | openclaw-plugin/daemon-client.js:216-218 | in any run that connects, what the daemon decodes of all that was sent is the request's body, and of a part of it nothing |
| `RuntimeCache.Cache.Call` | lib/runtime-cache.ts:29-57 | a call is answered from the cache, from the run in flight, or by a run it starts |
| `RuntimeCache.CacheAgreesWithFunction` | lib/runtime-cache.ts:24-58 | in every run the value returned comes from a run on that key that finished less than the time to live before, was in flight, or was started |
| `RuntimeCache.CallIsAnsweredAtOnce` | lib/runtime-cache.ts:28-38 | a fresh entry is always a hit, else a run in flight is joined, and only else is one started |
| `RuntimeCache.FinishStoresItsResult` | lib/runtime-cache.ts:39-50 | a run that ends well stores its own result for one time to live; of other keys only the first of a cache at its limit goes |
| `RuntimeCache.FailureStoresNothing` | lib/runtime-cache.ts:51-54 | a run that fails leaves the cache as it is and its key free |
| `RuntimeCache.AtMostOneRunInFlight` | lib/runtime-cache.ts:36-56 | at most one run per key is in flight |
| `RuntimeCache.WaitersGetTheOneOutcome` | lib/runtime-cache.ts:36-57 | every caller that started or joined a run gets what it ended with, in the one step of the history that ends it, which comes after the call |
| `RuntimeCache.FailuresAreNeverStored` | lib/runtime-cache.ts:40-55 | failures are never stored and a positive size limit holds |
| `RuntimeCache.EvictsTheFirst` | lib/runtime-cache.ts:40-50 | after a store a key is held if and only if it is the one stored, or was held and was not the first of a full cache |
| `RuntimeCache.CacheIsInInsertionOrder` | lib/runtime-cache.ts:40-50 | in every history the cache lists its keys in the order they were last inserted |
| `RuntimeCache.DropsLeastRecentlyUsedUnlessPassed` | lib/runtime-cache.ts:30-50 | the first key is the least recently used if and only if it was not used past any other held key since that one came in |
| `RuntimeCache.TheLastUsedCanGo` | lib/runtime-cache.ts:30-50 | a history from an empty cache that drops the key used last |
| `RuntimeCache.RefreshEvictsAnother` | lib/runtime-cache.ts:43-48 | refreshing a key in a full cache evicts another entry |
| `BatchAll.Batch.ResumeWorker` | lib/concurrency.ts:12-21 | one stretch of a worker stores an outcome in its slot and takes the next task |
| `BatchAll.EachTaskStartsOnce` | lib/concurrency.ts:12-23 | every task is started once, in order, at most `concurrency` in flight |
| `BatchAll.PoolIsFull` | lib/concurrency.ts:12-23 | while a task is left to start, all the allowed concurrency is in use |
| `BatchAll.FinishedBatchIsTheTasks` | lib/concurrency.ts:5-26 | once all workers end, slot i holds outcome i, rejections included, if and only if the concurrency is positive or there are no tasks |
| `BatchAll.BatchTerminates` | lib/concurrency.ts:5-26 | no run is longer than two steps per task plus one per worker, and until the end some worker can go on |
| `BatchAll.NothingRuns` | lib/concurrency.ts:23 | a concurrency below one runs nothing |
| `Pairing.LogEntries` | lib/antigravity-sessions.ts:98-184 | the loop over mutable blocks and queues gives the entries and results of the declarative reading |
| `Pairing.Parser.PlannerResponse` | lib/antigravity-sessions.ts:132-161 | a planner step queues each call under its upper-cased name and emits an entry unless it is empty |
| `Pairing.Parser.ResultStep` | lib/antigravity-sessions.ts:163-180 | a result step fills in the block at the head of its queue, or is an entry of its own |
| `Pairing.ResultsMatchCallsInOrder` | lib/antigravity-sessions.ts:153-177 | results go to calls of their name in file order, k-th to k-th, always to an earlier call, one result a call |
| `PairingMeaning.CallsAreTheSites` | lib/antigravity-sessions.ts:138-151 | the calls are exactly the objects in the planner steps' lists, each once, in file order, with its line, name in capitals and time |
| `PairingMeaning.ReadingMeans` | lib/antigravity-sessions.ts:98-184 | the whole reading, of the lines alone: calls, what each line comes to, each assistant entry's own calls, each result's line, text, time and delay, and who is served when |
| `Pairing.EveryLineIsAccountedFor` | lib/antigravity-sessions.ts:107-181 | every line is an entry, one call's result, or skipped for a named reason, and nothing else appears |
| `Pairing.SortIsAStablePermutation` | lib/antigravity-sessions.ts:182 | the final order is a permutation by time, file order within one time |
| `Pairing.TimeOrderIsUnique` | lib/antigravity-sessions.ts:182 | any stable sort gives that order |
| `Semver.ParseInvertsRender` | lib/install-check.ts:65-69 | the pattern accepts exactly the renderings of versions and recovers their parts |
| `Semver.SplitsAtEveryDot` | lib/install-check.ts:79-80 | identifiers are split at every dot and at nothing else |
| `Semver.Compare` | lib/install-check.ts:64-98 | the loops with early returns compute the order |
| `Semver.ComparePrerelease` | lib/install-check.ts:81-97 | the loop over identifiers computes the order of two prerelease lists |
| `Semver.OrderOnVersions` | lib/install-check.ts:64-98 | on parsed strings a total preorder, equal exactly when cores and identifiers agree |
| `Semver.FirstDifferenceDecides` | lib/install-check.ts:81-97 | a prerelease is lower exactly when at the first difference its identifier is lower or it has run out |
| `SemverExact.BelowExactly` | lib/install-check.ts:64-98 | one version is below another exactly by core values, or as a prerelease of the other's release, or by its identifiers at the first difference or running out |
| `SemverExact.IdExactly` | lib/install-check.ts:84-95 | identifiers of digits by value and before all others, the others as text |
| `SemverExact.OthersCompareAsText` | lib/install-check.ts:72 | strings that are not both versions compare as text |
| `SemverExact.VersionsExactly` | lib/install-check.ts:66 | which strings are versions |
| `SemverExact.FirstDigitCounts` | lib/install-check.ts:68 | what a row of digits is worth |
| `Semver.IdIsATotalPreorder` | lib/install-check.ts:84-95 | identifiers are totally preordered, equal when identical or numerically equal |
| `Semver.ReleaseOutranksItsPrereleases` | lib/install-check.ts:76-78 | a version is below a release exactly when its core is lower or it is a prerelease of the same core (section 11 of Semantic Versioning 2.0.0) |
| `Semver.OrderOnOtherStrings` | lib/install-check.ts:72 | strings are also ordered when at most one of those compared is a version |
| `Semver.MixedStringsCanCycle` | lib/install-check.ts:72 | with two versions among them they can form a cycle |
| `Semver.MixedStringsOrderedExactly` | lib/install-check.ts:64-98 | two versions and another string are ordered if and only if the string never lies between the versions, as text, against their order |
| `PythonVersion.Normalize` | scripts/python-version.py:108-128 | the pieces appended give the normal form, or the input is refused |
| `PythonSpelling.ReadsExactlyTheSpellings` | scripts/python-version.py:72-84 | for every text and version: the text is read as that version if and only if it is, case aside, an admitted spelling of it |
| `PythonSpelling.AcceptsExactlyTheGrammar` | scripts/python-version.py:72-84 | reading from the left without going back accepts exactly the texts of the pattern |
| `PythonSpelling.BareWordTakesTheHyphen` | scripts/python-version.py:76-77 | the pattern's one ambiguity: a hyphen and digits after a bare pre-release word are also that word's number, which is how they are read |
| `PythonVersion.CanonicalReads` | scripts/python-version.py:72-84 | the normal form of any version reads back as that version |
| `PythonVersion.NormalFormIsStable` | scripts/python-version.py:108-128 | normalising is idempotent, and two spellings normalise alike exactly when they are the same version |
| `PythonExact.CanonicalIsTheNormalSpelling` | scripts/python-version.py:108-128 | the normal form is the spelling with short labels, no leading zeros, `.post` and `.dev`, and full stops in the local part |
| `PythonExact.CharactersExactly` | scripts/python-version.py:73-84 | which characters are digits, letters, separators and spaces, and how case is ignored |
| `PythonExact.DecimalIsShortest` | scripts/python-version.py:114-124 | numbers are written without leading zeros |
| `PythonExact.ClassifiedExactly` | scripts/python-version.py:131-162 | every string, exactly: no version, not canonical, a beta or stable version with its successor, or another |
| `PythonVersion.SchemeIsTheShape` | scripts/python-version.py:54-55 | a canonical version matches the stable or beta pattern exactly when it is X.Y.Z or X.Y.ZbN |
| `PythonVersion.ProposedVersionIsTheNextBeta` | scripts/python-version.py:131-158 | the proposed successor is canonical, a beta, strictly later in PEP 440 order, and no scheme version lies between |
| `PythonVersion.EverySchemeVersionAdvances` | scripts/python-version.py:146-154 | every stable or beta version in normal form is recognised and given its successor |
| `PythonVersion.SuccessorIsNext` | scripts/python-version.py:146-152 | the successor is later and nothing of the scheme lies between |
| `VersionFile.Disk.Read` | scripts/python-version.py:89-105 | a value is returned exactly when the scan finds one assignment, and stands in the text in an assignment to the name, between equal quotes; none or several are errors |
| `VersionFile.Disk.Rewrite` | scripts/python-version.py:196-213 | the file is rewritten on success and untouched on an error |
| `VersionFile.ReplacingKeepsTheScan` | scripts/python-version.py:206-210 | replacing the literal leaves exactly one assignment, at the same place |
| `VersionFile.WriteThenRead` | scripts/python-version.py:89-105 | a write succeeds exactly for a scheme version and one assignment, reads back as that version, and changes only the literal |
| `VersionScan.FoundExactly` | scripts/python-version.py:50 | the scan finds an assignment exactly when the text has one as it is spelt, with either quote |
| `VersionScan.ReadExactly` | scripts/python-version.py:89-105 | a value is read exactly when the text has a first assignment and none that starts after it ends, and is that one's |
| `VersionScan.WriteFailsExactly` | scripts/python-version.py:196-213 | why a write fails, exactly |
| `ProjectTree.SplitsAtEveryColon` | lib/paths.ts:51-53 | joining the segments with colons restores the path, and none holds a colon |
| `TreeNames.SegmentsExactly` | lib/paths.ts:37-53 | a path has segments exactly when it starts with two or more lower-case letters and a colon |
| `ProjectTree.FiguresAreTotals` | lib/project-tree.ts:76-86 | a node's figures are the count, the sum of reported sessions or none, the latest date from the epoch, and each CLI in first-seen order |
| `ProjectTree.InsertCounts` | lib/project-tree.ts:132-149 | inserting a project counts it at every prefix of its path and changes no other node's figures |
| `ProjectTree.NodesSumTheirProjects` | lib/project-tree.ts:114-150 | a node exists exactly for the prefixes of paths, with the totals of the projects beneath and the first project at its path |
| `ProjectTree.RootCounts` | lib/project-tree.ts:114-151 | the root counts add up to the projects less repeated file-system names |
| `ProjectTree.RootsCountEveryProject` | lib/project-tree.ts:120-129 | every project is counted in one root if and only if no two file-system projects share a name |
| `TreeRows.BuildProjectTree` | lib/project-tree.ts:114-156 | the loop builds the finished tree |
| `TreeRows.TreeSumsTheProjects` | lib/project-tree.ts:88-156 | the finished tree has the same totals at every path, each level newest first |
| `TreeRows.RootsOfTheTree` | lib/project-tree.ts:114-156 | its roots are one for each first segment and each file-system name and no others; a name's root is the last project of that name, with its own figures and no children |
| `TreeNames.NodesAreNamedByTheirPath` | lib/project-tree.ts:131-149 | the node at a path is keyed by the whole path, titled by its last segment and as deep as it is long, and each of its children is found one segment further on |
| `TreeNames.RootsInFirstSeenOrder` | lib/project-tree.ts:114-130 | before sorting, the roots stand in the order their first projects are listed in |
| `TreeNames.ChildrenInFirstSeenOrder` | lib/project-tree.ts:131-149 | and so do the nodes under every path |
| `TreeNames.SortKeepsTies` | lib/project-tree.ts:91 | nodes of one date stay in order |
| `TreeRows.FinalizeKeepsEntries` | lib/project-tree.ts:88-104 | finishing changes no figure |
| `TreeRows.RowList.Walk` | lib/project-tree.ts:165-178 | the walk pushes the visible rows in order |
| `TreeRows.RowsShowEachNodeOnce` | lib/project-tree.ts:165-178 | the rows are the nodes not inside a collapsed folder, each once, parents first |

## Left out

- The SQLite engines: `node:sqlite`, `sql.js`, queries and result rows are not part of this model.
- SnapshotIsTheCommittedDatabase: assumes that every write of the main file changes its size and time triple, and that the log is read atomically; the version is a counter here.
- TornAppendIsInvisible: stale or torn bytes that happen to carry a valid checksum are not ruled out by the format, and the writer steps exclude them.
- ApplyCommittedWal: the main file and the log are whole arrays; views into larger buffers are not modelled.
- Decide: the SQLite transaction is one step, and a row's digest is modelled by the fields it is computed from, so digests never collide.
- TurnsAreIndependentExactly: for a turn whose own clock steps back, or whose session is cleared, the condition is shown to be enough (TurnsDoNotInterfere) and not that it is needed.
- BoundedInterruption: counts request ids of one turn in one time-to-live span; across spans the cap starts afresh, as in the source.
- TurnDeliveries: `unseen` and `mark` outside `claim`, which only the tests call, are not modelled.
- ReminderConservation: the plugin's own internal errors, and how a result is rendered with its reminders, are left out; a result either can carry reminders or cannot.
- Reminders: the call key stands for the session, task, call, tool and argument digest, which is taken as injective.
- Keeps: what makes a line a head, a continuation, noise, a ready line or a banner is decided by the regular expressions, which are parameters here; so is the wording of a failure's cause.
- Watcher: callbacks that throw, and the TCP probe itself, are not modelled; a probe attempt ends in yes, no or an exception.
- Recv: the deadline of the Python client is an arrival that ends the readable bytes.
- ReadReply: what the Hermes client checks in the reply after decoding it is left out; the OpenClaw client's richer reply checks are modelled.
- Judge: JSON parsing and white-space trimming are parameters.
- Exchange: encoding the request and the payload limit are inputs; only the framed body is modelled.
- CacheAgreesWithFunction: time values are integers, and keys are the serialised arguments.
- LogEntries: entry ids, raw fields, formatted dates and the tool input are left out; dates are given in milliseconds.
- Parser: upper-casing of names is a parameter.
- Number: numeric identifiers are unbounded integers; the platform's loss of precision above 2^53 is left out.
- Parse: the patterns are modelled on ASCII characters, so Unicode white space, and the few non-ASCII letters that match case-insensitively, are left out, as is Python's limit on very long digit strings.
- ComparePublic: local version labels are not ordered, because scheme versions have none.
- ReadAssignment: white space is ASCII white space.
- Rewrite: the text is what a text-mode read gives; the platform's translation of line endings on reading and writing, which also touches other bytes of a file with foreign line endings, is left out.
- BuildProjectTree: builder nodes are values, so the sharing of mutable nodes between levels is not shown; formatted dates are left out.
- The dashboard pages, telemetry, heartbeats, discovery scanners and the other transcript parsers: input and output, or simpler forms of what is proved here.
- `is_prerelease`, `release_tag`, `collapsibleKeys`: single expressions or walks already covered.
