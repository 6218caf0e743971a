# smsie: verified model of the modem pool

smsie drives a tray of serial GSM modems: it receives and sends SMS over AT commands, keeps track of
which SIM sits in which bay, keeps prepaid SIMs alive with scheduled messages, forecasts their
balances, and restores its SQLite database from backups. This project models the parts of it that
are state machines or arithmetic, in Dafny, and proves what they are for.

| file | part of smsie |
|---|---|
| `Framing.dfy`, `AtSession.dfy`, `SmsListing.dfy`, `Inbox.dfy` | receiving: bytes to lines, lines to replies, replies to stored messages, messages to database rows |
| `Transactions.dfy` | sending, and many callers sharing one serial port |
| `Ownership.dfy` | which worker owns which SIM |
| `Tray.dfy`, `TrayInvariants.dfy`, `SlotInference.dfy` | the SIM tray, its event log, and guessing slot numbers |
| `Keepalive.dfy` | the keep-alive scheduler |
| `Forecast.dfy` | the balance forecast |
| `Restore.dfy` | swapping in a restored database at start-up |
| `RingBuffer.dfy` | the audio sample queue |
| `Basics.dfy`, `GoStrings.dfy` | the Go arithmetic, sorting and string functions the above rely on |

The code's objects are classes and its loops are loops. Each such method is proved equal to a
function (or relation) on values, and the theorems are about those functions: what every step
keeps, and what therefore holds after any history of steps. Whatever the outside world decides
(a modem's answers, a failing disk or database, the clock, the order in which goroutines or map keys
come up) is a parameter or a choice that the theorems leave open. Times are nanoseconds.

Where a desired property does not hold of the code as it stands, a lemma gives the inputs that show
it, and another says exactly when it does hold:

- A modem not seen before that takes over a SIM leaves the SIM written down in its old bay too
  (`TrayInvariants.StrandedSim`), and a slot guessed for a bay that already has a row reaches the
  SIM's cached slot but not the bay (`TrayInvariants.LostGuess`). `ObserveKeepsConsistent` shows
  these are the only two ways `Observe` breaks the tray; on a calibrated tray neither can happen.
- An interval of more than 106751 days wraps around in `isDue` (`Keepalive.LongIntervalsWrap`).
  `Keepalive.IntervalKeptUpTo`: unforced sends keep the interval after every log exactly up to there.
- A message the network took escapes the monthly cap if the run log cannot be written
  (`Keepalive.UnloggedSendExceedsCap`) or the worker reports an error although the message went out,
  as when the confirmation comes too late (`UnreportedSendExceedsCap`, `Transactions.LateConfirmation`);
  either can be repeated without end (`LostSendsPileUp`). `DriftIsLoss` and, over histories,
  `AirMatchesLog`: the air and the log agree exactly when no message is taken that is not both
  reported and logged. `AirWithinCap`: the air is within the cap exactly when the lost messages fit.
- The documentation of keep-alive says a message only goes to a SIM of the same operator; with none
  to write to, `pickTarget` falls back to any SIM in the tray with a number
  (`Keepalive.LeavesNetwork`). `Keepalive.StaysOnNetwork`: the message stays on the sender's network
  exactly when there is a SIM there to write to.
- If VACUUM INTO fails, the raw copy taken instead misses what is only in the WAL
  (`Restore.RawCopyLosesWal`), and an old log that cannot be removed is applied to the restored file
  (`Restore.LeftoverWal`); `OldContentsSurvive`, `OldLogsGone` and `LeftoverLogSpoils` give the exact
  conditions.
- If the rename of the staged database fails, the old logs are already gone and the program goes on
  with a live database that lacks them, although the backup has them (`Restore.FailedRenameDropsWal`).
  `FailedRestoreKeeps`: a failed restore leaves the live contents whole exactly when no log was removed
  before the rename failed.
- Deleting a SIM while its worker is still starting lets a second worker claim it
  (`Ownership.RemovalRace`), exactly when `RemoveKeepsOwned` says so. A worker that disappears
  between claiming and publishing its SIM leaves the claim behind, and the SIM is then refused on
  every other port (`Ownership.StaleClaim`); `BackedThroughout` says exactly which runs never do that.
- A message can be announced a second time after a user deletes its SIM
  (`Inbox.PurgedIsAnnouncedAgain`). `AnnouncedAgainIff`: as long as nobody deletes the SIM and the
  message does not come anew, it can be announced (again) exactly when it is now on the modem,
  readable, and without a row.
- A saved message is never announced if the process dies between saving and announcing it
  (`Inbox.NeverAnnounced`), and exactly then (`HandleAnnouncesIff`, `PollAnnouncesIff`).
- The event log stops telling the truth when a SIM is deleted, exactly if a bay holds it
  (`TrayInvariants.DeleteTellsIff`).
- A command that times out leaves the rest of its answer for the next one
  (`AtSession.LateReplyIsMisread`). `AnswerIsOwnIffInTime`: a command takes its own whole answer
  exactly when it waits for more messages than precede the final line; and over any sequence of
  commands all answers are their own exactly when no wait ends too soon (`AllAnswersOwnIffInTime`).
- A prompt that comes after the wait leaves the modem in prompt mode: the send is over without an
  escape (`Transactions.LatePrompt`), and `KeepsPortIffPrompted` shows that what is written next then
  comes from another transaction. It is the message's own segment exactly when the prompt was seen.
- `comNumber` strips the prefix `\.\`, whereas Windows device paths begin `\\.\`, so such a path is
  never recognised as a COM port (`SlotInference.DevicePathIsNoComPort`), while the shorter prefix is
  dropped (`ShortPrefixIsDropped`).

The model follows the code wherever its documentation says otherwise.

`dafny verify dfyconfig.toml` checks the project.

## Model

| member | source | states |
|---|---|---|
| Framing.Reader.FlushLine | internal/worker/worker.go:213-288 | a line end hands on the trimmed line, and only if something is left of it |
| Framing.Reader.Accept | internal/worker/worker.go:213-288 | one read is consumed byte by byte: carriage returns vanish, line ends flush, a `>` at the start of a line is a message of its own |
| Framing.Reader.ReadLoop | internal/worker/worker.go:213-288 | all reads in turn, skipping empty and timed-out ones, up to the first fatal error, which is reported last |
| Framing.SplitsDoNotMatter | internal/worker/worker.go:213-288 | for every sequence of reads the result depends on the bytes alone, not on where reads begin and end |
| Framing.FramingRoundTrip | internal/worker/worker.go:213-288 | any clean lines, under any white-space padding and blank lines, come out as sent, in order |
| Framing.PromptIsImmediate | internal/worker/worker.go:213-288 | a `>` prompt is reported at once, without a line end, and leaves no residue in the next line |
| Framing.FramingIsSplitting | internal/worker/worker.go:213-288 | for any bytes without a carriage return in which no line starts with a prompt, framing is splitting at line feeds, trimming, and dropping what is empty, with the last piece kept as the unfinished line |
| Framing.CarriageReturnsVanish | internal/worker/worker.go:213-288 | for any bytes, carriage returns can be left out without changing anything |
| Framing.FatalErrorIsLast | internal/worker/worker.go:213-288 | the first fatal error is reported once, after everything the reads before it gave, and whatever would follow it is never read |
| AtSession.Session.Execute | internal/worker/at_transaction.go:64-126 | the reply and the number of messages used up are those of `Collect`; one payload is written; exactly the unsolicited lines among the messages used are handled; the reply is a port failure if and only if the command could not be written or the message that ended the wait was a read error, and then, and only then, the worker is retired |
| AtSession.FirstFinalLineDecides | internal/worker/at_transaction.go:93-126 | the first OK, error or prompt line ends a reply; lines before it are all in the text and everything after it stays queued |
| AtSession.OkMeansOk | internal/worker/at_transaction.go:93-126 | conversely, an OK reply was read off exactly its own text, of which only the last line could end it |
| AtSession.PortFailedIff | internal/worker/at_transaction.go:93-126 | for any messages and any wait: a port failure is the reply if and only if the last message used is a read error, and no earlier one is |
| AtSession.InterruptedIff | internal/worker/at_transaction.go:93-126 | the reply is interrupted if and only if every message that came in time is a line that ends nothing; they are then all used up |
| AtSession.UrcKinds | internal/worker/worker.go:566-574 | `+CMTI:`, `+CREG:` and `+CUSD:` lines are always unsolicited, call lists and call states only in builds with telephony |
| AtSession.AnswerIsOwnIffInTime | internal/worker/at_transaction.go:93-126 | a command takes its whole answer off the queue, and no more, if and only if its wait outlasts the lines before the final one; otherwise it ends interrupted, having taken exactly what came in time, and the rest stays queued |
| AtSession.AllAnswersOwnIffInTime | internal/worker/at_transaction.go:64-126 | over any sequence of commands answered in order, each reply is exactly that command's own answer if and only if every wait outlasts its answer |
| AtSession.LateReplyIsMisread | internal/worker/at_transaction.go:93-98 | for any two commands in a row: if the first wait ends too soon, and only then, the second command, waiting long enough, gets a reply made of the rest of the first one's answer |
| SmsListing.ParseStoredSMS | internal/worker/worker_logic.go:242-266 | the loop over the reply's lines computes `ParseResponse` |
| SmsListing.ListingParses | internal/worker/worker_logic.go:242-266 | from any parser state, a listing with unsolicited lines anywhere in it parses to the stored messages in order, with nothing pending |
| SmsListing.HexLine | internal/worker/worker_logic.go:246-263 | a hexadecimal PDU line cannot be taken for a header, an unsolicited line or the end of the reply |
| SmsListing.HeaderLine | internal/worker/worker_logic.go:246-254 | the index printed in a header is the index parsed, and a header is never unsolicited or final |
| SmsListing.ListingRoundTrip | internal/worker/worker_logic.go:215-266 | end to end: for any modem store, unsolicited lines, padding and split into reads, framing, then `execute`, then parsing return exactly the stored (index, PDU) pairs in order, using up all lines |
| SmsListing.EntriesAreGenuine | internal/worker/worker_logic.go:242-266 | whatever the reply, nothing is made up: every entry has a header with its index, and the first line after it that is neither blank nor unsolicited is its PDU, in hexadecimal |
| SmsListing.IndexField | internal/worker/worker_logic.go:247-254 | any first field of a header announces a message if and only if it reads as a non-negative 64-bit number, and then announces that one |
| Inbox.Receiver.CreateReceivedOnce | internal/repository/sms_repo.go:22-34 | inserts exactly when no row with this SIM, kind and PDU exists and neither query fails; a failure inserts nothing |
| Inbox.Receiver.CheckSMS | internal/worker/worker_logic.go:215-235 | the loop over the listing computes `Poll`, step by step, up to a crash if there is one |
| Inbox.HandleKeeps | internal/worker/worker_logic.go:226-234 | handling one message, interrupted anywhere, keeps `Safe` (nothing lost, doubled or announced twice but what a user deleted) and leaves the rest of the listing valid |
| Inbox.PollKeeps | internal/worker/worker_logic.go:215-235 | a whole poll keeps `Safe` whatever fails in it |
| Inbox.NothingLostNothingDoubled | internal/worker/worker_logic.go:215-235 | over every history of arrivals, unreadable messages, database failures, refused or unheard deletions, crashes and users deleting the SIM: each message is on the modem or in the table or went with a deleted SIM, only saved messages are deleted, no message has two rows, and none is announced twice unless it was on the modem after its row went with a deleted SIM |
| Inbox.PurgedIsAnnouncedAgain | internal/api/modem_handler.go:528-541 | witness, for every such message: still on the modem when the SIM's rows are deleted, it is saved and announced a second time |
| Inbox.HandlingAnnouncesIff | internal/worker/worker_logic.go:226-234 | for a listed message, some handling undisturbed by deletions announces it, again or for the first time, if and only if it is readable and has no row |
| Inbox.AnnouncedAgainIff | internal/worker/worker_logic.go:215-235 | from any safe state, some history with no deletion of the SIM and no new arrival of the message announces it if and only if it is on the modem, readable and without a row |
| Inbox.HandleAnnouncesIff | internal/worker/worker_logic.go:384-397 | handling a message leaves something saved but unannounced if and only if it inserts a row never announced before and the process dies before announcing it |
| Inbox.PollAnnouncesIff | internal/worker/worker_logic.go:215-235 | the same for a whole poll |
| Inbox.NeverAnnounced | internal/repository/sms_repo.go:22-34 | a message saved and not announced is never announced over any history that keeps its row |
| Inbox.PollAnnounces | internal/worker/worker_logic.go:384-397 | without crashes every saved message is announced, so with the above exactly once |
| Inbox.GoodLuckDelivers | internal/worker/worker_logic.go:226-234 | a readable message whose handling meets no failure moves from the modem to the table |
| Inbox.SmoothPollDelivers | internal/worker/worker_logic.go:215-235 | a poll without failures saves and deletes every readable message listed |
| Inbox.FailuresStayLocal | internal/worker/worker_logic.go:226-234 | in any poll without crashes and deletions, whatever fails for other messages, each readable message whose own handling meets no failure ends in the table and off the modem |
| Inbox.RetainedOnModem | internal/worker/worker_logic.go:226-230 | in any poll, whatever happens otherwise, a message that cannot be decoded or looked up stays where it is on the modem |
| Inbox.WireToTable | internal/worker/worker_logic.go:215-266 | from the modem's bytes to database rows: with no failures, every readable message the modem lists is saved and deleted, and `Safe` holds |
| Transactions.SendSegments | internal/worker/worker.go:1185-1241 | the body of a send follows the phases: both settings, then per segment announce and submit, escape after a failed submit, stop at the first failure; the wire sees the phases' commands in order, and each reply is the one collected from what was still queued |
| Transactions.SentMeansAcknowledged | internal/worker/worker.go:1188-1239 | a send succeeds if and only if PDU mode was accepted and every segment was prompted for and answered with a `+CMGS:` reference, one after the other |
| Transactions.AnnouncesLength | internal/worker/worker.go:1210-1214 | an announcement is `AT+CMGS=` and the decimal digits of the segment's length, with a carriage return |
| Transactions.WireFollowsScript | internal/worker/worker.go:1188-1231 | for any replies, what a send puts on the wire is, place by place, a fixed script (both settings, then for each segment its announcement and its digits with Ctrl-Z), or the bare escape right after a failed submission |
| Transactions.SuccessWritesScript | internal/worker/worker.go:1188-1239 | a send that succeeds has written the whole script and nothing else |
| Transactions.InteractiveIff | internal/worker/at_transaction.go:51-71 | a command is refused by `executeAT` if and only if, whatever its case and leading space, it spells `AT+CMGS=` or `AT+CMGW=`, or it ends with Ctrl-Z or escape |
| Transactions.PlainCommandsDoNotPrompt | internal/worker/at_transaction.go:51-72 | a command that `executeAT` lets through never opens a prompt and is sent with a carriage return, whatever its spacing |
| Transactions.StepIsContiguous | internal/worker/worker.go:178-210 | every step of any caller or of the loop keeps the port's log a concatenation of whole transactions and the running one |
| Transactions.AlwaysOrderly | internal/worker/at_transaction.go:23-41 | in every reachable state: the log is whole transactions in the order they entered the queue, and every caller was told its own body's result or that the worker stopped |
| Transactions.PromptIsAnswered | internal/worker/worker.go:1213-1231 | in every reachable state, the command after a prompt is the announced segment of the same message with Ctrl-Z, and after its failure the escape of the same message; if it has not been written yet, it is what the running transaction does next |
| Transactions.KeepsPortIffPrompted | internal/worker/worker.go:1210-1222 | in every reachable state, the command after an announcement belongs to the same message if and only if the announcement saw the prompt; otherwise it comes from another transaction and no escape precedes it |
| Transactions.LatePrompt | internal/worker/worker.go:1210-1217 | an announcement whose prompt is under way leads to the submission if and only if the wait outlasts the lines before it; otherwise the send is over and the prompt stays queued for the next command |
| Transactions.LateConfirmation | internal/worker/worker.go:1219-1229 | a submitted segment whose confirmation is under way counts if and only if the wait outlasts it; otherwise the send is aborted and reported as failed |
| Ownership.Manager.UnregisterWorkerLocked | internal/worker/manager.go:137-146 | the port's worker and the claim on its published ICCID go, nothing else |
| Ownership.Manager.CleanupStoppedWorkersLocked | internal/worker/manager.go:121-135 | in any map order: exactly the stopped workers go, and those that asked for it are probed again |
| Ownership.Manager.ScanAndManage | internal/worker/manager.go:71-119 | the three phases of a scan, in any map order, compute `Scanned` |
| Ownership.Manager.RegisterICCID | internal/worker/manager.go:206-220 | refused exactly when another port has the claim; otherwise this port has it |
| Ownership.Manager.RemoveWorkerByICCID | internal/worker/manager.go:148-163 | on any fleet: stops and unlists one worker that answers for the SIM, the only one when claims are owned; if there is none, drops the claim |
| Ownership.Manager.GetWorkerByICCID | internal/worker/manager.go:192-204 | a running worker answering for the SIM, or none if there is none; when claims are owned, independent of map order |
| Ownership.ScanOutcome | internal/worker/manager.go:71-135 | after a scan the ports found are exactly those probed; a port has a worker exactly if its running worker goes on, unchanged, or if it is new or re-armed, and then the worker is a fresh one that is neither stopped nor asking for a probe and has no SIM yet |
| Ownership.ScanStops | internal/worker/manager.go:71-119 | a scan stops exactly the listed workers whose port is gone, and changes no other worker, listed or not |
| Ownership.RegisterOutcome | internal/worker/worker.go:436-440 | a worker asking for a SIM that is free or its own gets the claim and goes on; one that is refused stops; no other worker changes |
| Ownership.RemoveOutcome | internal/worker/manager.go:148-163 | with claims owned, a removal drops the claim, stops and unlists exactly the worker answering for the SIM, and leaves all else |
| Ownership.ScanKeepsOwned | internal/worker/manager.go:71-135 | a scan keeps every listed worker's claim its own |
| Ownership.RegisterKeepsOwned | internal/worker/worker.go:436-440 | so does a registration, granted or refused, by a listed worker or a late one |
| Ownership.OneWorkerPerSim | internal/worker/manager.go:71-220 | at every point of every interleaving of scans, registrations, publications, stops and safe removals, claims are owned and no two listed workers answer for one SIM |
| Ownership.RemoveKeepsOwned | internal/worker/manager.go:148-163 | deleting a SIM keeps this if and only if a worker answers for it or none has claimed it without publishing it |
| Ownership.RemovalRace | internal/worker/manager.go:161-161 | witness, for every fleet with two idle workers: the other case ends with both workers answering for the SIM |
| Ownership.RetireKeepsBacked | internal/worker/manager.go:137-146 | taking a worker off the list leaves a claim without a listed owner if and only if it had claimed but not published |
| Ownership.RegisterKeepsBacked | internal/worker/worker.go:436-440 | a registration creates such a claim if and only if it is new and its worker is already off the list |
| Ownership.ScanKeepsBacked | internal/worker/manager.go:71-135 | a whole scan leaves no such claim if and only if none of the workers it takes off the list has claimed a SIM without publishing it |
| Ownership.StepKeepsBacked | internal/worker/manager.go:71-220 | the same if-and-only-if for every kind of step |
| Ownership.BackedThroughout | internal/worker/manager.go:71-220 | over any run, every claim always has a listed owner if and only if no scan takes off a worker between its claim and its publication and no worker makes a new claim off the list |
| Ownership.StaleClaim | internal/worker/manager.go:137-146 | witness: after such a disappearance the SIM is refused on every other port |
| SlotInference.InferSlot | internal/slotlog/infer.go:14-42 | the vote, over maps visited in any order, gives the slot of the best-supported offset if it has two votes and the slot is in 1..32 and free |
| SlotInference.InferenceIsUnique | internal/slotlog/infer.go:20-31 | that answer is unique, so map order cannot matter |
| SlotInference.InferredSlotIsFree | internal/slotlog/infer.go:31-41 | an inferred slot is in 1..32, not known, and backed by two votes |
| SlotInference.MajorityDecides | internal/slotlog/infer.go:19-41 | if at least two and more than half of the parsable known ports satisfy slot + COM = k, the answer is k - COM when that slot exists and is free, and none otherwise |
| SlotInference.PluralityDecides | internal/slotlog/infer.go:19-41 | the offset with the most slots behind it, at least two, and the smallest among equals, decides: the guess is that offset minus the COM number if it is in 1..32 and free, none otherwise |
| SlotInference.NoPairNoGuess | internal/slotlog/infer.go:29-31 | if no two slots agree on an offset, nothing is guessed |
| SlotInference.LinearTray | internal/slotlog/infer.go:14-52 | on every tray numbered backwards from its COM numbers with two known slots, a new port gets exactly its slot, up to and including 32 |
| SlotInference.DevicePathIsNoComPort | internal/slotlog/infer.go:44-52 | a full Windows device path never counts as a COM port: it casts no vote and its modem is given no slot |
| SlotInference.ShortPrefixIsDropped | internal/slotlog/infer.go:44-52 | with the prefix the code strips, the COM number is read |
| Tray.DecideSlotEvents | internal/slotlog/decide.go:14-50 | the scan over the bays computes `Decide` |
| Tray.BayRepository.Known | internal/repository/bay_repo.go:268-284 | each calibrated slot with the port last logged for its modem |
| Tray.LastPortIs | internal/repository/bay_repo.go:268-284 | the port used for a modem is the one of its newest event, and empty if it has none |
| TrayInvariants.KnownMeans | internal/repository/bay_repo.go:268-284 | a slot is known if and only if a bay with that number holds a modem last seen on some port, and then with that port |
| Tray.BayRepository.Observe | internal/repository/bay_repo.go:50-118 | the whole new state of bays, log and cache, including the guess, the unique-slot failure and the order of cache updates; the log only grows |
| Tray.BayRepository.MarkEmpty | internal/repository/bay_repo.go:121-144 | the whole new state; an unknown or empty bay changes nothing |
| Tray.BayRepository.AssignSlot | internal/repository/bay_repo.go:161-184 | refused as taken exactly if another bay has the number, and as unknown exactly if there is no bay; then nothing changes; otherwise the number is the bay's, no other bay changes, no event is written, and the cache follows |
| TrayInvariants.ObserveKeepsConsistent | internal/repository/bay_repo.go:50-118 | seeing a SIM in a modem keeps slots distinct, SIMs in at most one bay and the cached slots right, if and only if neither a SIM is stranded nor a guess lost |
| TrayInvariants.ObserveOutcome | internal/repository/bay_repo.go:50-118 | unless the SIM is stranded or the guessed number is taken: after a modem is seen with a SIM it holds that SIM and no other bay does; the others are untouched; a modem not known before gets one new row |
| TrayInvariants.StepNamesPlaces | internal/slotlog/decide.go:36-48 | every event a sound operation writes carries the port it happened on and the slots, before and after, of the bays it tells about |
| TrayInvariants.MarkEmptyKeepsConsistent | internal/repository/bay_repo.go:121-144 | clearing a bay always keeps them |
| TrayInvariants.AssignKeepsConsistent | internal/repository/bay_repo.go:161-184 | assigning or removing a slot number always keeps them |
| TrayInvariants.SyncOutcome | internal/repository/bay_repo.go:161-184 | writing a slot number into the cache takes it from every other SIM and touches nothing else |
| TrayInvariants.RegisterKeepsConsistent | internal/repository/modem_repo.go:19-24 | a new SIM row keeps them if and only if no numbered bay already holds that SIM |
| TrayInvariants.DeleteKeepsConsistent | internal/api/modem_handler.go:528-590 | deleting a SIM always keeps them |
| TrayInvariants.DeleteTellsIff | internal/api/modem_handler.go:549-554 | with no event written, the log still tells the seating if and only if no bay held the SIM |
| TrayInvariants.ArrivalTells | internal/slotlog/decide.go:36-48 | the one or two events of a SIM arriving turn the old seating into the new one and continue both SIMs' stories |
| TrayInvariants.StepKeeps | internal/repository/bay_repo.go:50-184 | every sound operation keeps the tables in step, only appends to the log, and what it appends tells what happened |
| TrayInvariants.HistoryKeeps | internal/repository/bay_repo.go:50-184 | over every history: consistency; folding the new events over the first seating gives the present one; each SIM's events are a word of (inserted moved* removed)*, continued from where it was; no move names one slot twice |
| TrayInvariants.StaysCalibrated | internal/repository/bay_repo.go:31-184 | on a calibrated tray everyday operations are sound and keep it calibrated |
| TrayInvariants.CalibratedHistory | internal/repository/bay_repo.go:31-184 | over every everyday history of a consistent calibrated tray: it stays consistent and calibrated, the events tell the whole story as above, and every move is from one numbered slot to a different one |
| TrayInvariants.StepMovesSlots | internal/slotlog/decide.go:36-47 | on such a tray, every move one operation logs has both slots, and they differ |
| TrayInvariants.StrandedSim | internal/slotlog/decide.go:28-31 | witness: a SIM in an unknown modem ends up in two bays |
| TrayInvariants.LostGuess | internal/repository/bay_repo.go:64-73 | witness: a guess is cached for the SIM while its bay has no slot |
| Keepalive.PickTarget | internal/keepalive/pick.go:20-48 | an eligible candidate that no other eligible one precedes (online, then least used, then ICCID), or none if there is none |
| Keepalive.PickIgnoresOrder | internal/keepalive/pick.go:37-47 | any two orders of the same candidates give the same target |
| Keepalive.LexMeans | internal/keepalive/pick.go:37-47 | the order of ICCIDs that breaks ties is the one by the first difference, a proper prefix first |
| Keepalive.SentCountThisMonth | internal/repository/keepalive_repo.go:21-30 | the number of sent runs of the SIM in the month of the instant |
| Keepalive.LastSentAt | internal/repository/keepalive_repo.go:43-50 | the latest instant of a sent run of the SIM, none if there is none |
| Keepalive.TargetCounts | internal/repository/keepalive_repo.go:53-66 | for every SIM, how often it was a target of a sent run since the instant |
| Keepalive.Service.GatherCandidates | internal/keepalive/service.go:274-289 | the SIMs in the tray, in order, with those counts, or with what had been read when the query failed |
| Keepalive.Service.RunOne | internal/keepalive/service.go:218-267 | under the lock: nothing happens, or exactly the run the log and the stale item call for is sent and recorded, each as far as it succeeds; what the network took counts as on the air whatever is reported or logged |
| Keepalive.Service.RunSim | internal/keepalive/service.go:193-214 | a user's request runs the SIM's first item exactly when enabled and forced or due at the outer check, and otherwise changes nothing; each refusal is given exactly for its own reason |
| Keepalive.Service.RunAll | internal/keepalive/service.go:157-189 | a round makes exactly the runs for the items that are enabled, online, registered and due when looked at, in order, and reports how many were recorded |
| Keepalive.ChosenExactly | internal/keepalive/service.go:157-189 | the calls of a round are, in order, exactly those at the places whose item passes |
| Keepalive.PassesIff | internal/keepalive/service.go:164-175 | an item passes if and only if it is enabled, online and registered, and its last activity, or without any its first sight, is at least the interval old |
| Keepalive.DueIff | internal/keepalive/pick.go:51-60 | for every interval up to 106751 days: under the lock a SIM without activity and logged sends is due if and only if it was first seen an interval ago; any other if and only if the activity, if any, and every logged send of it are an interval old |
| Keepalive.RunOutcome | internal/keepalive/service.go:238-257 | a run is skipped if and only if the number of the SIM's sent runs of the month has reached the cap or no other SIM in the tray has a number; it is sent if and only if it is not skipped, the text rendered and the worker reported success; a target is named exactly when a message is tried, and is a SIM in the tray |
| Keepalive.MonthlyCap | internal/keepalive/service.go:216-257 | under every interleaving of forced and unforced callers with stale items, the log never shows more sent runs of a SIM in a month than the cap (or than at the start), and the messages the network took are exactly those logged as sent plus those lost to the log |
| Keepalive.DriftIsLoss | internal/keepalive/service.go:249-257 | per call: the air and the log drift apart if and only if a message is tried and taken that is not both reported and logged |
| Keepalive.AirMatchesLog | internal/keepalive/service.go:218-257 | over any history: they grow alike for a SIM and month if and only if no call of it is such a call |
| Keepalive.LostSendsPileUp | internal/keepalive/service.go:222-257 | witness, for any such call and any number k: repeated k times it puts k messages on the air while the log counts none |
| Keepalive.AirWithinCap | internal/keepalive/service.go:240-257 | from a fresh start the air is within the cap if and only if the lost messages fit into what the log leaves of it; with none lost, always |
| Keepalive.UnloggedSendExceedsCap | internal/keepalive/service.go:249-257 | witness, for any cap: with a log that cannot be written one message more than the cap goes out |
| Keepalive.UnreportedSendExceedsCap | internal/keepalive/service.go:249-257 | witness, for any cap: the same with every run logged, when each confirmation comes too late |
| Keepalive.Spacing | internal/keepalive/service.go:226-237 | an unforced run recorded as sent is at least the interval later than every earlier logged send of that SIM, whatever activity the caller carried, for every interval up to 106751 days |
| Keepalive.LongIntervalsWrap | internal/keepalive/pick.go:51-60 | witness, for every interval above 106751 days: a log after which a run is sent no earlier than the send before it, yet before the interval is over |
| Keepalive.IntervalKeptUpTo | internal/keepalive/pick.go:51-60 | for every interval: no log lets an unforced run be sent too early if and only if the interval is at most 106751 days |
| Keepalive.SpacedHistory | internal/keepalive/service.go:216-257 | over every history in which a SIM is never forced its sends stay an interval apart |
| Keepalive.StaysOnNetwork | internal/keepalive/pick.go:20-36 | a message goes to a SIM in the tray with a number, and to one on the sender's network if and only if there is one |
| Keepalive.LeavesNetwork | internal/keepalive/pick.go:31-36 | witness: with only a foreign SIM to write to, it is chosen |
| Keepalive.PicksLeastCounted | internal/keepalive/service.go:274-289 | the target is in the pool, online if any of the pool is; no equally online SIM has a lower count, and none of equal count a smaller ICCID, even when the counts are incomplete |
| Keepalive.LeastAimedAt | internal/repository/keepalive_repo.go:53-66 | so with working counts no equally online SIM of the pool was the target of fewer sent runs inside the window; with a failed query none has a lower count among those read |
| Keepalive.PicksLeastUsed | internal/keepalive/service.go:274-289 | with working counts, equally online candidates and all sends in the window, the target has been used no more than any other |
| Keepalive.RotationStaysEven | internal/keepalive/service.go:269-289 | so over any number of runs with working counts the use counts stay within max(1, the initial spread) of one another |
| BalanceForecast.CutAtTopUp | internal/balance/forecast.go:20-28 | the backward scan finds the longest suffix in which the balance never rises |
| BalanceForecast.Accumulate | internal/balance/forecast.go:32-45 | n times each accumulated sum is the sum over all pairs of points of the products of their differences |
| BalanceForecast.Forecast | internal/balance/forecast.go:17-58 | for any points: a forecast is given if and only if the recent decline has two points, spans 24 hours and ends lower than it began; the days left are the last balance over the weighted average loss, floored at zero |
| BalanceForecast.CovarianceIsPairSum | internal/balance/forecast.go:40-45 | for any length, n times the sum of products of deviations from the means equals the sum over pairs |
| BalanceForecast.OpposedPairSum | internal/balance/forecast.go:40-45 | that sum is at most the product for the outermost pair when times rise and balances do not |
| BalanceForecast.SlopeSign | internal/balance/forecast.go:29-52 | on a cut segment spanning a day the variance is positive, so its zero test never fires, and the slope is negative exactly when the first balance exceeds the last |
| BalanceForecast.EstimateBounds | internal/balance/forecast.go:32-57 | if consecutive readings lose between lo and hi per 24 hours of their instants, last/hi <= days left <= last/lo |
| BalanceForecast.StraightLineIsExact | internal/balance/forecast.go:32-57 | on a straight line the days left are the last balance over the loss per 24 hours |
| BalanceForecast.EstimateIsRegression | internal/balance/forecast.go:32-57 | for any readings: a line whose residuals sum to zero, plain and weighted by time (the normal equations of least squares), falls, and the days left are the last balance over its fall, floored at zero |
| BalanceForecast.SegmentIsRecent | internal/balance/forecast.go:20-28 | the readings used are the newest ones, at most seven, back to the last rise among them and no further |
| BalanceForecast.ForecastDecision | internal/balance/forecast.go:29-52 | there is a forecast if and only if those are at least two, span 24 hours, and end lower than they began |
| Restore.Disk.Snapshot | internal/backup/backup.go:170-200 | every state the disk passes through, for VACUUM, failed VACUUM with raw copy, and raw copy alone |
| Restore.Disk.Swap | internal/backup/backup.go:157-165 | sidecars first, each removal possibly failing, then the rename |
| Restore.Disk.ApplyPending | internal/backup/backup.go:140-166 | every state of a whole call, and its outcome |
| Restore.OldContentsSurvive | internal/backup/backup.go:149-156 | after a restore some finished backup holds the old database with its logs, if and only if VACUUM worked, closing folded the logs in, there were none, or another backup already had it |
| Restore.OldLogsGone | internal/backup/backup.go:157-161 | after a restore no old WAL or journal lies beside the new file, if and only if each was absent, folded in or really removed |
| Restore.TraceSafe | internal/backup/backup.go:140-183 | no state inside a call loses the old contents or pairs an old log with the restored file |
| Restore.CrashSafe | internal/backup/backup.go:140-183 | nor does any sequence of starts, each cut off after any file operation |
| Restore.Converges | internal/backup/backup.go:140-166 | from every state such a sequence leaves, one uninterrupted call makes the staged database live and alone with the old one saved, and any further call changes nothing |
| Restore.RestoredIff | internal/backup/backup.go:140-166 | a restore is reported if and only if a sound file was staged and has left its staging place; its contents are then those of the live file |
| Restore.NothingToRestore | internal/backup/backup.go:140-148 | without a staged file nothing changes; a damaged one is thrown away and nothing else changes |
| Restore.FreshRestore | internal/backup/backup.go:140-166 | with no live database the staged one takes its place, without a backup, and stands alone if and only if whatever logs lay there could be removed; a failed rename leaves it staged |
| Restore.BackupLeft | internal/backup/backup.go:149-200 | a start leaves in the backup directory, under its stamp, the old database with its logs if VACUUM worked or closing folded them in, the main file alone if only the copy worked, a torn file if the copy broke off, and touches no other backup |
| Restore.FailedRestoreKeeps | internal/backup/backup.go:149-166 | a restore that fails keeps the staged file; the live database keeps its full contents if and only if the snapshot failed first, closing folded the logs in, or no log was removed |
| Restore.FailedRenameDropsWal | internal/backup/backup.go:159-164 | witness: when the rename fails after the WAL was removed, the live database has lost what was in it |
| Restore.LeftoverLogSpoils | internal/backup/backup.go:157-165 | after a restore the live contents are the staged ones if and only if no old log lies beside them |
| Restore.LeftoverWal | internal/backup/backup.go:159-161 | witness: with VACUUM working, a WAL that could not be removed is applied to the restored file |
| Restore.RawCopyLosesWal | internal/backup/backup.go:173-183 | witness: with a failed VACUUM a change only in the WAL ends up in no file |
| RingBuffer.Int16Ring.constructor | internal/calling/ringbuffer.go:17-24 | an empty open queue of at least one place |
| RingBuffer.Int16Ring.Write | internal/calling/ringbuffer.go:33-49 | the queue becomes the last capacity elements of old contents followed by data |
| RingBuffer.Int16Ring.ReadPartial | internal/calling/ringbuffer.go:51-70 | the oldest samples move to the front of dst, as many as both allow; a closed ring gives none and says so |
| RingBuffer.Int16Ring.Close | internal/calling/ringbuffer.go:26-31 | shuts the ring and keeps its contents |
| RingBuffer.ReadsAreSubsequence | internal/calling/ringbuffer.go:33-70 | over any run the samples read are an in-order subsequence of those written, and all were written before those still queued |
| RingBuffer.LosslessWithoutOverflow | internal/calling/ringbuffer.go:33-70 | if no write overflows, the samples read are a prefix of those written and the queue is the rest |

## Left out

- BalanceForecast.Forecast: float64 rounding; balances, offsets and sums are exact reals.
- Keepalive.MonthlyCap: months and the 30-day window are parameters, so daylight-saving and calendar arithmetic are not modelled.
- Keepalive.Spacing: for intervals below -106751 days, runs whose clock is behind the earlier send.
- Keepalive.Service.RunAll: stopping between two items, and the pause before each, which change no state.
- Inbox.NothingLostNothingDoubled: TPDU decoding is an arbitrary predicate (readable or not); sender, text and time of a row are functions of its PDU and left out; the balance and phone-number capture after saving is not modelled. That only this worker inserts received rows of its SIM is a hypothesis: listed workers never share a SIM, but one just taken off the list may still be saving a message.
- AtSession.Session.Execute: real time; how many messages come before the timer or the stop signal is a parameter.
- Framing.Reader.ReadLoop: the stop channel and the bounded receive queue, which only delay the reader.
- Transactions.AlwaysOrderly: a caller refused before its transaction enters the queue; unsolicited lines handled while the loop is idle; a poll body that would itself queue a transaction.
- Transactions.SendSegments: the checks of its arguments, encoding text into TPDUs, and the history row written after a successful send.
- Ownership.OneWorkerPerSim: worker objects are numbered records, so sharing of pointers is by number; a failed port listing is no step; stopping the whole manager is a stop of each worker.
- Tray.BayRepository.Observe: the operator, phone and time columns of events; database errors, which roll the whole transaction back.
- Restore.CrashSafe: changes the running program makes to the live database between two starts; starts with an occupied stamp, a failing VACUUM or unremovable sidecars, for which `OldContentsSurvive` and `OldLogsGone` say what one completed call does.
- RingBuffer.Int16Ring.ReadPartial: the mutex and condition variable; every method runs under the mutex.
- White space and letter case are those of ASCII; Go's functions also know the Unicode ones.
- SQL itself: tables are sequences and maps, a transaction is one atomic step, with SQLite's rules.
- The AT dialogue of `initModem` before it registers an ICCID, the call state machine, USSD balance queries and operator lookup.
- The HTTP API, the MCP server, authentication, audit, reports and alerts, which mostly move data.
- The SIP gateway, WebRTC, sound and USB devices, which belong to foreign libraries and the operating system.
- Scheduled backups and pruning old ones.
