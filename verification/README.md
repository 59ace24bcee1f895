# The animus queue, as a machine over two files

This project models the queue plugin's state and every call that changes it, and proves what the plugin's design
promises about whole runs: that tickets fence, that keys are remembered, that a finish happens once, that a crash
inside a commit leaves no trace, and that the text a key's hash is taken of determines the request.

The state is two files. `queue.json` holds the rows in queue order and, per subject, the last generation given out.
`queue-history.jsonl` holds one record per finish, and is only ever appended to. Every call runs under one lock, so a
call is one step: load the queue, decide, append the records of the rows that finished, replace the queue file. A
commit may be interrupted after any byte of the append and before the replace.

## How it is laid out

| file | content |
|---|---|
| `Text`, `QueueState`, `QueueHistory` | strings, rows, tickets, records and the lookups over them |
| `QueueService`, `FencedQueue` | what the old-style and the ticketed calls do to a loaded queue, as functions |
| `Machine` | every call as a plan (queue to save, records to append, reply), the two files, events, crashes and runs |
| `Effects` | the only ways a call may change, finish or add a row |
| `Invariant` | what every reachable pair of files satisfies, kept by every call and every interrupted commit |
| `Runs` | what only ever moves forward along a run |
| `HandOutScan`, `HandOuts`, `OldStyleHandOut` | the two hand-out loops against greedy specifications |
| `Copies` | which rows the ticketed hand-out looks at and gives, and copies of one subject |
| `TicketedRows`, `TicketedAdds`, `OldStyleRows` | the calls field by field: what each leaves in each row, and who is turned away |
| `Fencing`, `Finishing`, `Ownership`, `Idempotency`, `Subjects` | tickets, finishes, time, keys, and subjects and branches over whole runs |
| `CrashRefinement`, `TornLog`, `Files` | the row table the files stand for, the log byte by byte, and the two together |
| `Reordering`, `Wakeups`, `QueueStore` | reorder, the expiry sweep and `next_deadline`, the id migration of a load |
| `Json`, `RequestHash`, `Retries` | JSON values, the canonical printer, a parser that undoes it, enqueue preimages, and what a key promises in their terms |
| `Scenario` | a run in which a ticket changes hands, so that the run theorems speak of something |
| `Backend` | the plugin's own shape: a queue changed in place by loops, and a backend that serves each call from the two files, each method proved to do what `Machine` plans |

A run is a sequence of events; an event is a call, what it reads besides the files (`Env`: the clock, the ticket length
and minted ids) and, if its commit was interrupted, where. `Invariant.Inv` holds of an empty pair of files and of any
old-style queue file with unique ids (`Subjects.OldFileIsFine`), and the run theorems start from any pair of files that
satisfies it.

## What is assumed

- A minted entry id occurs nowhere in the two files, and an identified subject is not the empty string
  (`Machine.Possible`).
- Of the JSON library, for history lines: a record's text decodes to the record, is not blank, has no newline, and no
  strict prefix of it decodes (`TornLog.Sound`; `TornLog.DashesAreSound` shows it can be met).
- The replace of `queue.json` is all or nothing, and an interrupted append leaves a prefix of its bytes.

## Where the documentation and the code disagree

- The doc comment of the old-style add (src/queue_service.rs:85-90) says an immediate add of the same work is a no-op.
  The code always appends a row (src/queue_service.rs:124-150). The model follows the code:
  `OldStyleHandOut.AddAlwaysAppends` states exactly when an add changes nothing, and `OldStyleHandOut.AddedTwice` what two
  equal adds leave.

## One running row per subject

The code does not promise it where old-style copies exist. What holds is stated call by call and over runs:

- `OldStyleHandOut.HandOutRunsOnce`, `HandOutKeepsOneRunning`, `ExcludingIsEnough` and `ExcludingIsExact` for the old-style
  hand-out, where `exclude_subjects` decides, and `MarkingKeepsOneRunning` for `mark_assigned`.
- `Copies.CopyIsGiven`, `CopiesGetTickets` and `HandOutRunsOnce` for the ticketed hand-out, where only an excluded ticket
  with the copy's own number keeps a copy from running.
- `Subjects.OneLiveRowPerSubject`: on runs without old-style adds no subject has two live rows, so none runs twice.
  `Subjects.CopiesCanRun`: from any state with two waiting copies, two calls make both run.

## Model

| member | source | states |
|---|---|---|
| Invariant.EventKeeps | src/queue_service.rs:655-662 | Every call, run to its end or interrupted in its commit, keeps the invariant: unique ids, no branch running twice, no number or key on two entries, only ticketed rows with reservations, keys and generations, and history records that are earlier versions of their entries |
| Invariant.RunKeeps | src/queue_history.rs:8-18 | The invariant holds after every run, with commits interrupted anywhere |
| Subjects.OldFileIsFine | src/dispatch_queue_state.rs:174-189 | A queue file from before tickets, with unique ids and no history, satisfies the invariant |
| Effects.PerformMoves | src/fenced_queue.rs:54-548 | A complete list, over all thirteen calls, of the ways a row may change, finish or appear; no row is lost, doubled or made up |
| Runs.RunAdvances | src/dispatch_queue_state.rs:108-189 | Along every run counters never fall, the log only grows, every entry's next version keeps its identity, keys and generations, and a finished entry stays finished with the same record |
| Fencing.IssueRaises | src/fenced_queue.rs:295-315 | A hand-out or takeover raises the entry's lease generation by exactly one, only from waiting or from running past its expiry, and the ticket it replies is the saved row's own |
| Fencing.OnlyIssuesRaise | src/fenced_queue.rs:421-548 | No other call, old-style ones included, moves a lease generation |
| Fencing.NumbersNeverReused | src/dispatch_queue_state.rs:120-123 | Two tickets issued for one entry anywhere in a run carry different, rising generations |
| Fencing.StaleTicketRefused | src/fenced_queue.rs:434-467 | Once the generation has risen past a ticket's, in every later state renew, takeover, "done" and put-back with it are turned away and change nothing |
| Fencing.NotFoundIsUnknown | src/fenced_queue.rs:560-566 | `NotFound` is replied exactly when the files never held the entry |
| TicketedRows.TicketShowsRow | src/dispatch_queue_state.rs:227-254 | A row has a ticket exactly if no part is missing, and the ticket shows the row's own values |
| TicketedRows.FitsExactly | src/fenced_queue.rs:661-694 | A ticket fits a row exactly if it is the row's own in every part but the expiry and the spelling of the repository |
| TicketedRows.MalformedTicketCalls | src/fenced_queue.rs:353-408 | A ticket call is malformed exactly if it names no queue entry, asks for no time, or names no terminal outcome; then nothing changes |
| TicketedRows.TurnedAway | src/fenced_queue.rs:444-467 | The exact reply to a ticket that does not hold its live entry; nothing changes |
| TicketedRows.TakeoverNeedsAnother | src/fenced_queue.rs:474-480 | Taking over from oneself, or for nobody, is refused |
| TicketedRows.FinishedIsExact | src/fenced_queue.rs:554-582 | The exact reply about a finished entry: already applied only to a "done" of the holder of an entry that was not dropped |
| Fencing.TicketsAgree | src/fenced_queue.rs:664-678 | From its first hand-out on, all tickets of an entry agree on workflow, workflow generation, subject, subject generation and repository; the lease generation alone determines the owner |
| Finishing.TicketIsHeld | src/dispatch_queue_state.rs:227-254 | The ticket replied by a hand-out, takeover or renewal always matches its running entry |
| Finishing.HolderFinishes | src/fenced_queue.rs:519-529 | Until a takeover, put-back, drop or completion of the entry takes effect, the holder's "done" is applied, expired or not, whatever else was called or interrupted |
| Finishing.FinishesOnce | src/queue_history.rs:14-18 | Once a finish of an entry took effect, no later event of the run finishes it again |
| Finishing.DoneIsFinal | src/fenced_queue.rs:554-582 | After an applied "done", every retry with that ticket gets `AlreadyApplied` and the first outcome is kept; any other ticket or operation gets `NotAssigned`, whatever lines interrupted commits left in the log |
| Finishing.PutBackRepeats | src/fenced_queue.rs:443-460 | After an applied put-back, the same ticket gets `AlreadyApplied` while the entry waits under that generation and `NotAssigned` while it is held, and nothing changes |
| TicketedRows.PutBackIsExact | src/fenced_queue.rs:530-546 | A put-back with the matching ticket is applied whatever the expiry: the row waits again and is otherwise as it was |
| TicketedRows.PutBackTwice | src/fenced_queue.rs:443-453 | The same put-back right after is `AlreadyApplied` and changes nothing |
| TicketedRows.PutBackIsHandedOut | src/fenced_queue.rs:393-397 | A row put back is given by the next hand-out that looks at it and has nothing against it, with the same workflow and the lease generation one higher |
| TicketedRows.DoneIsExact | src/fenced_queue.rs:519-529 | A "done" takes the row out and records it, without its dispatch, under the outcome its status names |
| QueueHistory.OutcomeWords | src/queue_history.rs:51-58 | The three terminal words with their outcomes; no other word is one |
| Finishing.OldStyleDoneIsExact | src/queue_service.rs:520-575 | An old-style "done" finishes its row exactly when the row runs, the workflow named fits and the status is terminal, with the record it writes; else nothing changes, and the reply says why |
| OldStyleRows.HoldIsExact | src/queue_service.rs:358-374 | Only a waiting row is put on hold; a held one stays so; any other is refused |
| OldStyleRows.ReleaseIsExact | src/queue_service.rs:377-392 | Only a held row is released |
| OldStyleRows.MarkAssignedIsExact | src/queue_service.rs:489-515 | Only a waiting old-style row is set running, under the caller's workflow id or a fresh one |
| OldStyleRows.ReleasePendingIsExact | src/queue_service.rs:589-647 | Only a running old-style row is put back; its workflow and lease are forgotten |
| OldStyleRows.DropIsExact | src/queue_service.rs:395-419 | Any row is dropped, and recorded without its dispatch |
| Ownership.OwnersDisjoint | src/fenced_queue.rs:481-497 | On a clock that does not run backwards, a new holder's ticket starts only after the expiry of every earlier ticket of the entry has passed, unless the entry was put back in between |
| Ownership.HolderRenews | src/fenced_queue.rs:499-516 | The holder's renewal is applied exactly while the stored expiry lies ahead; it never moves the expiry back and changes nothing else of the ticket |
| Ownership.OtherTakesOver | src/fenced_queue.rs:470-498 | Another owner's takeover is applied exactly once the stored expiry is not ahead any more, and raises the generation by one; before, it is told the live ticket |
| TicketedRows.RenewalIsExact | src/fenced_queue.rs:499-516 | A renewal of a live ticket moves the row's expiry, never back, and changes nothing else of the row |
| TicketedRows.TakeoverIsExact | src/fenced_queue.rs:470-498 | A takeover sets owner, expiry and the next generation, and changes nothing else of the row |
| Ownership.TtlInRange | src/fenced_queue.rs:412-417 | A granted ticket length is at least 1 second, at most the configured limit, and the caller's own wish when that is within the limit |
| Ownership.ExpiriesStayBounded | src/lease_ttl.rs:14-24 | No stored expiry is ever further ahead of the latest clock reading than the longest ticket length |
| Idempotency.KeyRemembered | src/fenced_queue.rs:114-146 | Once an add with a key was accepted, every later acceptable add with that key gets the same entry and subject generation and adds nothing if its content hash is the same, and is refused otherwise: live, just swept or finished, and across interrupted commits |
| Idempotency.AcceptBinds | src/fenced_queue.rs:127-166 | An accepted key is bound to the replied entry and the sent content, on a new row or on the one it got back |
| Idempotency.NoLostGeneration | src/fenced_queue.rs:620-629 | The "holds key but no subject generation" error cannot be reached |
| Idempotency.OneHolder | src/dispatch_queue_state.rs:297-305 | A key is held by at most one entry, live or finished |
| Subjects.BranchRunsOnce | src/fenced_queue.rs:270-293 | In no reachable state do two running rows reserve the same branch |
| TicketedAdds.AddedBranchesRunOnce | src/fenced_queue.rs:270-293 | Two entries whose accepted adds named the same branch never run together in any later state |
| Subjects.CounterDominates | src/fenced_queue.rs:803-821 | A subject's counter is at least every generation a live or finished entry of the subject holds |
| Subjects.CountersNeverDrop | src/dispatch_queue_state.rs:181-185 | Counters never fall, over any run |
| Subjects.SubjectNumbersNeverReused | src/fenced_queue.rs:768-796 | A subject generation is given to one entry only, over the whole run |
| Subjects.ReceiptsAgree | src/fenced_queue.rs:147-176 | Two receipts anywhere in a run that tell the same subject generation are for the same entry |
| Subjects.AddsExactlyWhenFree | src/fenced_queue.rs:734-761 | A ticketed add makes a new entry exactly when it is acceptable, its key is new, and after the sweep the subject has no live ticketed entry and no waiting or held old-style one |
| TicketedAdds.NewAddIsExact | src/fenced_queue.rs:147-176 | Field by field, the row a new add makes, last in the queue; its number is the subject's recorded one plus one, and is recorded |
| TicketedAdds.JoiningAddIsExact | src/fenced_queue.rs:127-145 | An add that gets a row back gets the ticketed one with the highest number, else the first waiting or held old-style one; that row alone changes, by its name and the add's key |
| TicketedAdds.AddIsRefusedExactly | src/fenced_queue.rs:58-106 | An add is refused exactly if it is malformed (each way spelled out) or its key is bound to other content; then nothing changes |
| TicketedAdds.SpacesDoNotMatter | src/fenced_queue.rs:93 | Keys that differ in surrounding white space are one key |
| Text.TrimIs | src/fenced_queue.rs:93 | Trimming takes off the white space at both ends, and no more |
| Subjects.OneLiveRowPerSubject | src/fenced_queue.rs:47-52 | On runs whose entries all come from ticketed adds, no subject ever has two live entries |
| Subjects.CopiesCanRun | src/fenced_queue.rs:224-341 | The other way round: wherever two old-style copies of a subject wait, a reorder and one hand-out make both run |
| FencedQueue.HighestTicketed | src/fenced_queue.rs:736-746 | The row that stops a new add is a ticketed one of the subject with the highest generation |
| FencedQueue.RunningOnBranch | src/fenced_queue.rs:711-725 | The reported holder of a branch is a running row on it, none assigned earlier; none is reported only if none runs there |
| FencedQueue.Candidates | src/fenced_queue.rs:212-222 | The candidates are the first due waiting rows, in queue order, as many as the cap allows |
| FencedQueue.LiveMax | src/fenced_queue.rs:809-815 | The highest generation a live row of the subject holds, or 0 |
| HandOuts.LeaseV2IsGreedy | src/fenced_queue.rs:195-347 | The ticketed hand-out decides the candidates in queue order until the batch is full or they end; every one is given or refused, never both; a given one meets no conflict in the final queue, a refused one for a reason that stands there; nothing else changes |
| HandOuts.LeaseV2Saves | src/fenced_queue.rs:225-345 | When nothing is saved nothing had changed |
| HandOuts.GrantIsRow | src/fenced_queue.rs:307-340 | Every ticket replied belongs to a row that was waiting and due and that the saved queue holds exactly as replied |
| TicketedRows.HandOutIsExact | src/fenced_queue.rs:307-340 | Field by field, what a hand-out makes of each row it gives and what the ticket says: owner, generation one higher, expiry at now plus the ticket length, assignment time, workflow generation kept or 1, everything else the waiting row's; and the row was due and not past its window |
| TicketedRows.TicketLasts | src/fenced_queue.rs:224-314 | Undisturbed, until the ticket length has passed since the hand-out the holder's renewal is applied and another owner's takeover is told the ticket is live |
| Copies.GivenUnlessOpposed | src/fenced_queue.rs:258-293 | A row that is looked at and can be identified is given exactly if no excluded ticket has its number or branch and no other row runs on its branch |
| Copies.LooksAtFifty | src/fenced_queue.rs:212-222 | The rows looked at are the first fifty that wait and whose time has come |
| Copies.HandOutIsRefused | src/fenced_queue.rs:199-205 | A hand-out request is refused exactly if it asks for none or more than five, its owner is blank, or its ids are not that many distinct non-blank ones |
| Copies.CopyIsGiven | src/fenced_queue.rs:258-293 | In any queue in good order, an old-style candidate with a subject that is looked at runs afterwards exactly if the caller excludes no ticket with the number it just got; another row of the subject, running or not, is no reason |
| Copies.CopiesGetTickets | tests/fenced_lease.rs:413-433 | Two old-style copies of one subject, anywhere among the candidates looked at, get different numbers, and both run afterwards exactly if neither number is excluded |
| Copies.HandOutRunsOnce | src/fenced_queue.rs:195-347 | After a ticketed hand-out no subject runs twice exactly if none did and no given row shares its subject with a row that was running or is given too |
| HandOutScan.ScanIsFrugal | src/fenced_queue.rs:295-341 | Over any queue, damaged ones included: fresh workflow ids form a prefix of the request, each used once, damaged rows take none, so the ids never run out; refused rows keep everything but a newly minted identity |
| OldStyleHandOut.OldStyleLeaseIsGreedy | src/queue_service.rs:284-350 | At most `max` rows in queue order, of distinct subjects outside the excluded ones; every eligible row passed over is excluded, repeats a chosen subject, or comes after a full batch; each slot keeps its row's workflow id or gets the slot's own |
| OldStyleHandOut.TicketedRowsUntouched | src/queue_service.rs:295-297 | A ticketed row the sweep keeps stays where it is and as it is |
| OldStyleRows.SubjectText | src/dispatch_queue_state.rs:309-323 | A row's subject for old-style calls: the stored text trimmed, else the dispatch's subject id, else the task id |
| OldStyleRows.TakenExactly | src/queue_service.rs:291-321 | With room for every row, exactly the first open row of each subject that is not excluded is given; open, in fields: old-style, with a dispatch, waiting and due or running past its expiry |
| OldStyleRows.StoredSubjectsDecide | src/queue_service.rs:317-320 | Of two open rows with stored subjects the first is given, and the second exactly if its trimmed text differs |
| OldStyleRows.ExcludedTextIsSkipped | src/queue_service.rs:288-320 | An excluded text keeps out every row whose stored subject trims to it |
| OldStyleRows.AddedSubjectsDecide | src/queue_service.rs:147-150 | Two old-style adds and a hand-out: the second row is given exactly if the two legacy keys, trimmed, differ |
| OldStyleRows.SlotIsExact | src/queue_service.rs:326-344 | Field by field, what the hand-out leaves in each slot, and that it replies just that row; it never gives a waiting row past its window |
| OldStyleRows.EmptyHandOuts | src/queue_service.rs:267-277 | The replies to a request whose ids do not match its size or that asks for nothing; nothing changes |
| OldStyleHandOut.HandOutRunsOnce | src/queue_service.rs:284-350 | Any queue, any old-style hand-out: afterwards no subject runs twice exactly if the running rows it leaves alone have subjects of their own and none of them shares its subject with a row it takes |
| OldStyleHandOut.HandOutKeepsOneRunning | src/queue_service.rs:288-321 | Where no subject ran twice, that stays so exactly if no row taken is a copy of a row that runs on |
| OldStyleHandOut.ExcludingIsEnough | src/queue_service.rs:129-130 | With every running row's subject in `exclude_subjects`, no subject ever comes to run twice |
| OldStyleHandOut.ExcludingIsExact | src/queue_service.rs:288-321 | With room for every row, no subject comes to run twice exactly if each subject with a running row and an eligible copy that the scan takes first is excluded |
| OldStyleHandOut.MarkingKeepsOneRunning | src/queue_service.rs:489-515 | `mark_assigned` keeps every subject to one running row exactly if the row it sets running is no copy of a running one |
| OldStyleHandOut.AddAlwaysAppends | src/queue_service.rs:91-150 | Whatever rows the queue holds, an old-style add with a subject appends one row to the swept queue; it leaves the queue as it was exactly if the dispatch has no subject |
| OldStyleRows.OldStyleAddIsExact | src/queue_service.rs:124-156 | Field by field, the row an old-style add appends, and the number of live rows of the subject it warns about |
| OldStyleHandOut.AddedTwice | src/queue_service.rs:124-150 | Adding the same immediate work twice appends two rows of different ids and loses none but what expired |
| Scenario.TicketChangesHands | src/fenced_queue.rs:361-382 | A run in which a ticket is handed out, expires and is taken over, and the first holder's "done" is refused: what the theorems about runs assume does happen |
| CrashRefinement.EventRefines | src/queue_service.rs:655-662 | One event on the files is one transaction on a row table that keeps finished rows; an interrupted one is no transaction at all |
| CrashRefinement.RecallAgrees | src/queue_history.rs:160-176 | The lookup of the last history line finds the finished row of the table, in spite of lines left by interrupted commits |
| CrashRefinement.RunRefines | src/queue_history.rs:8-18 | Over every run with interrupted commits, the files reply what the row table replies and stand for the table's state |
| CrashRefinement.NothingLost | src/queue_history.rs:14-18 | An entry of the table stays in it for ever, live or finished but never both, and a finished one keeps its record |
| Files.StepIsNext | src/queue_history.rs:114-146 | A commit cut after any byte is a commit cut after some number of records |
| Files.FilesRefineTable | src/queue_service.rs:655-662 | Crash refinement down to bytes: with commits stopped after any byte, every reply is the row table's |
| TornLog.CutAppend | src/queue_history.rs:126-138 | After an append cut at any byte, the reader sees every earlier record, then a prefix of the appended ones, and all of them if nothing was cut off |
| TornLog.LogRecovers | src/queue_history.rs:178-213 | After any sequence of appends, each possibly cut, the reader sees, append by append and in order, a prefix of its records, and all of them where it was not cut |
| TornLog.HistoryFile.AppendHistory | src/queue_history.rs:114-157 | The append writes the payload, on a fresh line if the last one is torn |
| TornLog.HistoryFile.FindLast | src/queue_history.rs:178-213 | One pass over the lines finds the last matching record among those the reader sees |
| TornLog.DashesAreSound | src/queue_history.rs:194-203 | What is assumed of the encoding of history lines can be met: every numbering of the records gives an encoding that does |
| QueueHistory.LastIndex | src/queue_history.rs:193-213 | The match found is the last one, and none is missed |
| Reordering.ReorderPermutes | src/queue_service.rs:445-466 | Any queue: a reorder only permutes the rows and keeps the counters |
| Reordering.ReorderIsStable | src/queue_service.rs:429-479 | The result is the distinct named rows in request order, then the others in their old order; the count is the number of positions whose row changed |
| Reordering.ZeroIsUnchanged | src/queue_service.rs:467-478 | A count of 0 is replied exactly when the queue is unchanged |
| Reordering.ReorderTwice | src/queue_service.rs:426-479 | Repeating a reorder changes nothing |
| Wakeups.SweepInterleaves | src/queue_service.rs:851-879 | The sweep splits the rows into kept and recorded ones, both in queue order, losing and making up none |
| Wakeups.SweepIsExact | src/queue_service.rs:855-877 | The sweep drops and records exactly the waiting rows whose `run_at` plus window is a time and is over, ticketed or not; it keeps all others |
| Wakeups.DueIs | src/dispatch_queue_state.rs:260-265 | What both hand-outs call due: waiting, with no readable `run_at` or one that has come |
| Wakeups.DroppedOnlyLate | src/dispatch_queue_state.rs:284-293 | Every record of a sweep is of a row past its window, so after it was due |
| Wakeups.SweepAgain | src/queue_service.rs:846-858 | Sweeping again later leaves what one later sweep leaves; at a fixed time a second sweep drops nothing |
| Wakeups.WakeUpIsExact | src/queue_service.rs:223-240 | `next_deadline` replies an instant after now up to which the due set stays the same and at which it grows, or nothing if it never grows |
| Wakeups.WakeUpIsSaved | src/queue_service.rs:236-238 | The answer is about the queue that is saved |
| QueueService.NextRunAt | src/queue_service.rs:228-235 | The earliest `run_at` after now among waiting rows |
| QueueStore.MigrationNames | src/dispatch_queue_store.rs:135-144 | The id migration names every row, makes ids unique if those present were, and changes nothing else; it changes nothing at all exactly when every row had an id |
| QueueStore.StaysNamed | src/dispatch_queue_store.rs:117-131 | Once every row has an id, they all keep having one, so later loads migrate nothing |
| RequestHash.CanonicalReads | src/request_hash.rs:10-33 | A parser recovers from a value's canonical text the value, up to key order |
| RequestHash.PreimageText | src/request_hash.rs:51-57 | The hashed text spelled out: four fields in key order, absent parts as null |
| RequestHash.PlaceText | src/request_hash.rs:51-57 | A reservation's text spelled out |
| RequestHash.EscapesAre | src/request_hash.rs:31 | What is written for each character of a string |
| RequestHash.DecimalReads | src/request_hash.rs:31 | A number's digits stand for the number |
| Json.BeforeIs | src/request_hash.rs:18-19 | Keys are ordered by their first differing character; a text stands behind its own beginnings |
| RequestHash.PrintAlikeIffSame | src/request_hash.rs:8-33 | Two values print alike exactly when they are equal up to the order of object keys |
| RequestHash.PreimagesAgree | src/request_hash.rs:41-58 | Two requests hash the same text exactly when dispatch without `requested_at` (up to key order), repository, `run_at` and `expire_after_secs` all agree |
| RequestHash.StampIgnored | src/request_hash.rs:38-50 | A retry with another `requested_at`, or none, hashes the same text |
| Retries.SameRequestIsReplayed | src/fenced_queue.rs:107-125 | Once an add with a key was accepted, a later add with that key is replayed exactly if it makes the same request (dispatch up to `requested_at` and key order, repository, `run_at`, `expire_after_secs`), and refused otherwise, for any digest that tells texts apart |
| Json.SameIffSorted | src/request_hash.rs:18-30 | Equality up to key order is equality of the sorted forms |
| Backend.LoadedQueue.SweepExpired | src/queue_service.rs:851-879 | The retain loop drops and records exactly what the sweep should, in order |
| Backend.LoadedQueue.MigrateMissingEntryIds | src/dispatch_queue_store.rs:135-144 | The loop gives a minted id to exactly the rows without one, and reports whether there were any |
| Backend.LoadedQueue.EnsureTicketIdentity | src/fenced_queue.rs:768-796 | In place: the row's identity, minted with the subject's next generation if it had none |
| Backend.LoadedQueue.NextSubjectGeneration | src/fenced_queue.rs:803-821 | In place: one above every recorded and live generation, and recorded |
| Backend.QueueBackend.Commit | src/queue_service.rs:655-662 | Append, then replace: the files hold the old log and the new records, and the new queue |
| Backend.QueueBackend.Open | src/dispatch_queue_store.rs:117-132 | A load writes the migrated queue back, and changes nothing once every row has an id |
| Backend.QueueBackend.FindHolder | src/fenced_queue.rs:589-612 | The holder of a key: a live row, else a just-swept one, else the last finished one |
| Backend.QueueBackend.EnqueueV2 | src/fenced_queue.rs:54-176 | The ticketed add, from the files to the files, does what the machine plans |
| Backend.QueueBackend.LeaseV2 | src/fenced_queue.rs:195-347 | The ticketed hand-out does what the machine plans |
| Backend.QueueBackend.HandOutBatch | src/fenced_queue.rs:224-341 | The hand-out loop, with its in-place edits, rollback of damaged rows and cursor over fresh ids, computes the scan; its out-of-ids break included |
| Backend.QueueBackend.FencedMutation | src/fenced_queue.rs:421-548 | Renew, takeover, "done" and put-back do what the machine plans |
| Backend.QueueBackend.MutateTicketed | src/fenced_queue.rs:442-547 | The same for a live entry: who is turned away, "done" and put-back |
| Backend.QueueBackend.RecoverLease | src/fenced_queue.rs:470-498 | The takeover of a matching ticket does what the machine plans |
| Backend.QueueBackend.RenewLease | src/fenced_queue.rs:499-516 | The renewal of a matching ticket does what the machine plans |
| Backend.QueueBackend.FinishedEntryOutcome | src/fenced_queue.rs:554-582 | The reply for an entry that is no longer live, from its last record |
| Backend.QueueBackend.Enqueue | src/queue_service.rs:91-150 | The old-style add does what the machine plans |
| Backend.QueueBackend.Lease | src/queue_service.rs:261-351 | The old-style hand-out does what the machine plans |
| Backend.QueueBackend.TakeRows | src/queue_service.rs:288-321 | The choosing loop computes the greedy choice |
| Backend.QueueBackend.AssignRows | src/queue_service.rs:323-344 | The assigning loop gives slot `i` to the `i`-th chosen row, and replies the rows as assigned |
| Backend.QueueBackend.MutateEntry | src/queue_service.rs:664-709 | One row changes, and the queue is saved only if it did |
| Backend.QueueBackend.Hold | src/queue_service.rs:358-374 | Hold does what the machine plans |
| Backend.QueueBackend.Release | src/queue_service.rs:377-392 | Release does what the machine plans |
| Backend.QueueBackend.MarkAssigned | src/queue_service.rs:489-515 | Mark-assigned does what the machine plans |
| Backend.QueueBackend.ReleasePending | src/queue_service.rs:589-647 | The old-style put-back does what the machine plans |
| Backend.QueueBackend.DropEntry | src/queue_service.rs:395-419 | Drop does what the machine plans |
| Backend.QueueBackend.Completion | src/queue_service.rs:520-575 | The old-style "done" does what the machine plans |
| Backend.QueueBackend.Reorder | src/queue_service.rs:429-479 | Reorder does what the machine plans |
| Backend.QueueBackend.Rearrange | src/queue_service.rs:443-466 | The nested loops over named ids and rows, then the rest, compute the new order |
| Backend.QueueBackend.NextDeadline | src/queue_service.rs:223-244 | `next_deadline` does what the machine plans |

## Left out

- Standard input and output, JSON-RPC, the manifest, arguments, and the mapping of errors to codes: plumbing around the calls.
- `list`, `stats` and paging: read-only views with no effect on the state.
- Log messages, warning texts, audit-log entries, `enqueued_at`, `reason` and the history's `state_word`: stored or replied, never read by a decision. A warning is modelled as the fact that there is one.
- The file system below "the replace is all or nothing" and "an append may stop after any byte": flushing, directories, page order, failing disks.
- The lock: every call is one step.
- Decoding of old file shapes, the bare-array fallback and the format-version refusal: `queue.json` is the value it holds, and a missing file is an empty queue.
- Going back to v0.3.3 and forward again, which drops tickets and counters on purpose: no run spans it.
- The host-version guard, `ANIMUS_QUEUE_LEASE_TTL_SECS` parsing and subject naming: a dispatch carries the identities those rules read from it, and the ticket length is any number in 1 to 604800.
- SHA-256: a request carries its content hash; `RequestHash` proves what equal preimages mean, and `Retries` takes the digest to tell texts apart.
- UUIDs: minted ids come with the call.
- The request checks of the external protocol crates are the conditions `ValidLease` and `ValidTicket`, and in an add what `Acceptable` lists; trimming of the three reservation texts and the branch collision key are part of the reservation a request carries.
- Time-string parsing: a time string carries the instant it parses to. Stored assignment times are compared as instants; the code compares their RFC 3339 texts, all in UTC.
- One clock reading per call: `finished_at` of a record and `held_at` are that reading; the code reads the clock again for them.
- 64-bit overflow of generations and of the parser's positions: numbers are unbounded.
- A JSON number is its printed text, so two numbers are equal when they print alike.
- Text is a sequence of code points, and sorting by code point is sorting by UTF-8 bytes; the encoding itself is left out.
- Progress after a lost hand-out reply: a gap the repository documents.
- Backend.QueueBackend.Open: decoding, the fallback for old shapes and the format-version refusal are not part of it, because the file is the value it holds.
