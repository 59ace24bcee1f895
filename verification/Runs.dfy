/** What only ever moves forward along a run. */
module Runs {
  import opened Wrappers
  import opened QueueState
  import opened QueueHistory
  import opened QueueService
  import opened FencedQueue
  import opened Machine
  import opened Effects
  import opened HandOutScan
  import opened Invariant

  predicate IsLive(d: Disk, id: string) {
    Position(d.live.entries, id).Some?
  }

  function LiveRow(d: Disk, id: string): (e: Entry)
    requires IsLive(d, id)
    ensures e in d.live.entries && e.id == id
  {
    d.live.entries[Position(d.live.entries, id).value]
  }

  /** The row left the queue, and its last record is the finish that took effect. */
  predicate IsDone(d: Disk, id: string) {
    !IsLive(d, id) && LastForEntry(d.log, id).Some?
  }

  function DoneRecord(d: Disk, id: string): (r: Record)
    requires IsDone(d, id)
  {
    LastForEntry(d.log, id).value
  }

  /** The current version of an entry: its live row, or its last record. */
  function Version(d: Disk, id: string): Option<Entry> {
    if IsLive(d, id) then Some(Snapshot(LiveRow(d, id)))
    else if IsDone(d, id) then Some(DoneRecord(d, id).entry)
    else None
  }

  // ---------------------------------------------------------------------
  // The log
  // ---------------------------------------------------------------------

  lemma LastForEntryConcat(log: seq<Record>, more: seq<Record>, id: string)
    ensures LastForEntry(log + more, id)
            == if LastForEntry(more, id).Some? then LastForEntry(more, id) else LastForEntry(log, id)
  {
    LastMatchConcat(log, more, (r: Record) => r.entry.id == id);
  }

  lemma LastForEntryIs(log: seq<Record>, id: string)
    ensures LastForEntry(log, id).None? <==> forall r :: r in log ==> r.entry.id != id
    ensures LastForEntry(log, id).Some? ==>
              LastForEntry(log, id).value in log && LastForEntry(log, id).value.entry.id == id
  {
  }

  // ---------------------------------------------------------------------
  // One event
  // ---------------------------------------------------------------------

  lemma {:induction false} ScanCounts(start: Scan, c: seq<nat>, n: nat, req: LeaseRequest,
                                      now: Instant, expires: Instant)
    requires n <= |c|
    requires forall k :: 0 <= k < |c| ==> c[k] < |start.queue.entries|
    ensures CountersGrow(start.queue.counters, ScanAfter(start, c, n, req, now, expires).queue.counters)
  {
    hide ScanAfter, Visit, Decisions, Decide;
    if n == 0 {
      ScanStarts(start, c, req, now, expires);
    } else {
      ScanTurns(start, c, n - 1, req, now, expires);
      ScanCounts(start, c, n - 1, req, now, expires);
      VisitCounts(ScanAfter(start, c, n - 1, req, now, expires), c[n - 1], req, now, expires);
    }
  }

  lemma VisitCounts(s: Scan, i: nat, req: LeaseRequest, now: Instant, expires: Instant)
    requires i < |s.queue.entries|
    ensures CountersGrow(s.queue.counters, Visit(s, i, req, now, expires).queue.counters)
  {
    hide NextGeneration, Conflict, ExecutionFence, HandedOut;
    var e := s.queue.entries[i];
    if e.dispatch.Some? && e.dispatch.value.canonicalId.Some? {
      CountedGrows(s.queue, e.dispatch.value.canonicalId.value);
    }
  }

  /** No call takes a subject's counter back. */
  lemma CountersAdvance(d: Disk, ev: Event)
    requires Supplied(ev.call, ev.env)
    ensures CountersGrow(d.live.counters, Next(d, ev).live.counters)
  {
    hide PlanEnqueueV2, PlanLeaseV2, PlanTicket, Recall, Moved, AssignSlots, Choose, NewOrder, Position;
    match ev.call
    case EnqueueV2(add) => AddingCounts(d.live, Recall(d, ev.call, ev.env), add, ev.env);
    case LeaseV2(req) => HandOutCounts(d.live, req, ev.env);
    case Ticket(fence, op) => TicketCounts(d.live, Recall(d, ev.call, ev.env), fence, op, ev.env);
    case _ =>
  }

  lemma TicketCounts(q: Queue, past: Option<Record>, fence: Fence, op: TicketOp, env: Env)
    ensures PlanTicket(q, past, fence, op, env).queue.counters == q.counters
  {
    hide ExecutionFence, ExactFenceMatches;
  }

  lemma HandOutCounts(q: Queue, req: LeaseRequest, env: Env)
    ensures CountersGrow(q.counters, PlanLeaseV2(q, req, env).queue.counters)
  {
    hide ScanAfter;
    var swept := SweepQueue(q, env.now);
    var c := Candidates(swept.entries, 0, CandidateCap(req.max), env.now);
    ScanCounts(ScanStart(swept, SweepFinished(q, env.now)), c, |c|, req, env.now, ExpiryOf(env));
  }

  lemma AddingCounts(q: Queue, past: Option<Record>, add: AddRequest, env: Env)
    ensures CountersGrow(q.counters, PlanEnqueueV2(q, past, add, env).queue.counters)
  {
    hide ReceiptFor, Holder, PlanNewAdd;
    if Acceptable(add) {
      AddCounts(SweepQueue(q, env.now), SweepFinished(q, env.now), q, add, env);
    }
  }

  lemma AddCounts(swept: Queue, finished: seq<Record>, q: Queue, add: AddRequest, env: Env)
    requires Acceptable(add) && swept.counters == q.counters
    ensures CountersGrow(q.counters, PlanNewAdd(q, swept, finished, add, env).queue.counters)
  {
    CountedGrows(swept, add.dispatch.canonicalId.value);
    var live := LiveEntryForSubject(swept.entries, add.dispatch.canonicalId.value);
    if live.Some? {
      var e := swept.entries[live.value];
      if e.dispatch.Some? && e.dispatch.value.canonicalId.Some? {
        CountedGrows(swept, e.dispatch.value.canonicalId.value);
      }
    }
  }

  /** `after` is a later state than `before`: nothing is lost, and what is finished stays finished the same way. */
  ghost predicate Advances(before: Disk, after: Disk) {
    && CountersGrow(before.live.counters, after.live.counters)
    && before.log <= after.log
    && (forall id :: Version(before, id).Some? ==>
          Version(after, id).Some? && Grows(Version(before, id).value, Version(after, id).value))
    && (forall id :: IsDone(before, id) ==> IsDone(after, id) && DoneRecord(after, id) == DoneRecord(before, id))
  }

  lemma AdvancesTransitive(a: Disk, b: Disk, c: Disk)
    requires Advances(a, b) && Advances(b, c)
    ensures Advances(a, c)
  {
    hide Grows, Version, IsDone, DoneRecord;
    forall id | Version(a, id).Some?
      ensures Version(c, id).Some? && Grows(Version(a, id).value, Version(c, id).value)
    {
      GrowsTransitive(Version(a, id).value, Version(b, id).value, Version(c, id).value);
    }
  }

  lemma SnapshotGrows(e: Entry, f: Entry)
    requires Grows(e, f)
    ensures Grows(Snapshot(e), Snapshot(f))
  {
  }

  /** What `ev` does to the rows, when it runs to its end. */
  lemma EventMoves(d: Disk, ev: Event)
    requires Inv(d) && Possible(d, ev)
    ensures RowsMove(d.live, ev.call, ev.env, PlanOf(d, ev.call, ev.env))
  {
    hide Perform;
    InvUndamaged(d);
    PerformMoves(d.live, Recall(d, ev.call, ev.env), ev.call, ev.env);
  }

  /** The record a finished row gets. */
  lemma FinishedRecord(q: Queue, call: Call, env: Env, plan: Plan, e: Entry)
    requires UniqueIds(q.entries) && Flows(q, call, env, plan)
    requires e in q.entries && e.id !in Ids(plan.queue.entries)
    ensures LastForEntry(plan.finished, e.id).Some?
    ensures MayFinish(call, env, plan.reply, e, LastForEntry(plan.finished, e.id).value)
  {
    hide MayFinish;
    LastForEntryIs(plan.finished, e.id);
    assert e.id in LogIds(plan.finished);
    var r := LastForEntry(plan.finished, e.id).value;
    var x :| x in q.entries && MayFinish(call, env, plan.reply, x, r);
    FinishKeepsId(call, env, plan.reply, x, r);
    ById(q.entries, x, e);
  }

  /** A live row after an event that ran to its end: changed as the call may, or finished. */
  lemma RowAfter(d: Disk, ev: Event, id: string)
    requires Inv(d) && Possible(d, ev) && ev.cut.None? && IsLive(d, id)
    ensures var plan := PlanOf(d, ev.call, ev.env);
            var after := Next(d, ev);
            var e := LiveRow(d, id);
            if IsLive(after, id) then RowChange(ev.call, ev.env, plan.reply, e, LiveRow(after, id))
            else IsDone(after, id) && MayFinish(ev.call, ev.env, plan.reply, e, DoneRecord(after, id))
  {
    hide Perform, MayChange, MayFinish, Recall;
    EventMoves(d, ev);
    var plan := PlanOf(d, ev.call, ev.env);
    var after := Next(d, ev);
    if !IsLive(after, id) {
      assert id !in Ids(plan.queue.entries);
      FinishedRecord(d.live, ev.call, ev.env, plan, LiveRow(d, id));
      LastForEntryConcat(d.log, plan.finished, id);
    }
  }

  /** A row that is not live stays so, unless it is the fresh one. */
  lemma AbsentAfter(d: Disk, ev: Event, id: string)
    requires Inv(d) && Possible(d, ev) && !IsLive(d, id)
    ensures IsDone(d, id) ==> IsDone(Next(d, ev), id) && DoneRecord(Next(d, ev), id) == DoneRecord(d, id)
    ensures IsLive(Next(d, ev), id) ==>
              MayAppear(ev.call, ev.env, PlanOf(d, ev.call, ev.env).reply, LiveRow(Next(d, ev), id))
  {
    hide Perform, MayFinish, MayAppear, RowChange, Recall;
    EventMoves(d, ev);
    var plan := PlanOf(d, ev.call, ev.env);
    var after := Next(d, ev);
    var appended := after.log[|d.log|..];
    assert forall r :: r in appended ==> r in plan.finished;
    assert id !in Ids(d.live.entries);
    forall r | r in appended
      ensures r.entry.id != id
    {
      var x :| x in d.live.entries && MayFinish(ev.call, ev.env, plan.reply, x, r);
      FinishKeepsId(ev.call, ev.env, plan.reply, x, r);
    }
    assert after.log == d.log + appended;
    LastForEntryConcat(d.log, appended, id);
    LastForEntryIs(appended, id);
    LastForEntryIs(d.log, id);
    if IsLive(after, id) {
      AppearsFresh(ev, plan, LiveRow(after, id));
    }
  }

  lemma AppearsFresh(ev: Event, plan: Plan, f: Entry)
    ensures MayAppear(ev.call, ev.env, plan.reply, f) ==> f.id == ev.env.entryId
  {
  }

  lemma EventAdvances(d: Disk, ev: Event)
    requires Inv(d) && Possible(d, ev)
    ensures Advances(d, Next(d, ev))
  {
    hide Perform, Grows, RowChange, MayFinish, MayAppear, RowOk, Coherent, Recall;
    var after := Next(d, ev);
    var plan := PlanOf(d, ev.call, ev.env);
    forall id | Version(d, id).Some?
      ensures Version(after, id).Some? && Grows(Version(d, id).value, Version(after, id).value)
    {
      VersionGrows(d, ev, id);
    }
    forall id | IsDone(d, id)
      ensures IsDone(after, id) && DoneRecord(after, id) == DoneRecord(d, id)
    {
      AbsentAfter(d, ev, id);
    }
    CountersAdvance(d, ev);
  }

  lemma VersionGrows(d: Disk, ev: Event, id: string)
    requires Inv(d) && Possible(d, ev) && Version(d, id).Some?
    ensures Version(Next(d, ev), id).Some? && Grows(Version(d, id).value, Version(Next(d, ev), id).value)
  {
    hide Perform, MayChange, MayAppear, Recall;
    var after := Next(d, ev);
    var plan := PlanOf(d, ev.call, ev.env);
    if !IsLive(d, id) {
      AbsentAfter(d, ev, id);
    } else if ev.cut.None? {
      var e := LiveRow(d, id);
      RowAfter(d, ev, id);
      if IsLive(after, id) {
        ChangeGrows(ev.call, ev.env, plan.reply, e, LiveRow(after, id), d.live.counters);
        SnapshotGrows(e, LiveRow(after, id));
      } else {
        FinishKeepsId(ev.call, ev.env, plan.reply, e, DoneRecord(after, id));
      }
    }
  }

  // ---------------------------------------------------------------------
  // Runs
  // ---------------------------------------------------------------------

  /** Every run only moves forward, and keeps the invariant. */
  lemma {:induction false} RunAdvances(d: Disk, run: seq<Event>)
    requires Inv(d) && IsRun(d, run)
    ensures Advances(d, After(d, run)) && Inv(After(d, run))
    decreases |run|
  {
    hide Inv, Next, Advances;
    if run == [] {
      AdvancesReflexive(d);
    } else {
      EventKeeps(d, run[0]);
      EventAdvances(d, run[0]);
      RunAdvances(Next(d, run[0]), run[1..]);
      AdvancesTransitive(d, Next(d, run[0]), After(d, run));
    }
  }

  lemma AdvancesReflexive(d: Disk)
    requires Inv(d)
    ensures Advances(d, d)
  {
    hide Coherent, Separate, Clash;
    forall id | Version(d, id).Some?
      ensures Grows(Version(d, id).value, Version(d, id).value)
    {
      if !IsLive(d, id) {
        LastForEntryIs(d.log, id);
      }
    }
  }
}
