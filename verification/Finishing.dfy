/** A row finishes once, the holder's "done" lands, and the answer never changes. */
module Finishing {
  import opened Wrappers
  import opened QueueState
  import opened QueueHistory
  import opened QueueService
  import opened FencedQueue
  import opened Machine
  import opened Effects
  import opened Invariant
  import opened Runs
  import opened Fencing

  // ---------------------------------------------------------------------
  // The holder's "done"
  // ---------------------------------------------------------------------

  /** The entry runs under ticket `f`. */
  predicate RunsUnder(d: Disk, f: Fence) {
    f.lease.Some? && IsLive(d, EntryOf(f)) && LiveRow(d, EntryOf(f)).status == Assigned
    && ExactFenceMatches(LiveRow(d, EntryOf(f)), f)
  }

  /** A takeover, put-back, drop or completion of the entry takes effect. */
  ghost predicate Disturbs(d: Disk, ev: Event, id: string)
    requires Supplied(ev.call, ev.env)
  {
    var reply := PlanOf(d, ev.call, ev.env).reply;
    && ev.cut.None?
    && (|| (ev.call.Ticket? && !ev.call.op.Renew? && ev.call.fence.lease.Some? && EntryOf(ev.call.fence) == id
            && reply.Mutation? && reply.outcome == Applied)
        || (ev.call == DropEntry(id) && reply == Changed(true, false))
        || (ev.call.Completion? && ev.call.id == id && reply == Changed(true, false)))
  }

  ghost predicate Undisturbed(d: Disk, run: seq<Event>, id: string)
    requires IsRun(d, run)
    decreases |run|
  {
    run == [] || (!Disturbs(d, run[0], id) && Undisturbed(Next(d, run[0]), run[1..], id))
  }

  /** The ticket of every hand-out, takeover and renewal is the one its entry runs under. */
  lemma TicketIsHeld(d: Disk, ev: Event, f: Fence)
    requires Inv(d) && Possible(d, ev) && (Issues(d, ev, f) || Renews(d, ev, f))
    ensures RunsUnder(Next(d, ev), f)
  {
    hide Inv, Issues, Perform, ExactFenceMatches, ExecutionFence;
    if Issues(d, ev, f) {
      IssueRaises(d, ev, f);
      FenceIsExact(LiveRow(Next(d, ev), EntryOf(f)), f);
    } else {
      RenewalIsHeld(d, ev, f);
    }
  }

  lemma FenceIsExact(e: Entry, f: Fence)
    requires ExecutionFence(e) == Some(f)
    ensures ExactFenceMatches(e, f)
  {
  }

  lemma RenewalIsHeld(d: Disk, ev: Event, f: Fence)
    requires Inv(d) && Possible(d, ev) && Renews(d, ev, f)
    ensures RunsUnder(Next(d, ev), f)
  {
    hide Inv, PlanEnqueueV2, PlanLeaseV2, PlanEnqueue, PlanLease, PlanReorder, PlanRow, PlanFinish;
    EventKeeps(d, ev);
    UniqueLive(Next(d, ev));
    var i := Position(d.live.entries, ev.call.fence.lease.value.entryId).value;
    LiveIs(Next(d, ev), Next(d, ev).live.entries[i]);
  }

  lemma HoldStep(d: Disk, ev: Event, f: Fence)
    requires Inv(d) && Possible(d, ev) && RunsUnder(d, f) && !Disturbs(d, ev, EntryOf(f))
    ensures RunsUnder(Next(d, ev), f)
  {
    hide Inv, Perform, SameRepository, HandsOut;
    if ev.cut.None? {
      RowAfter(d, ev, EntryOf(f));
    }
  }

  lemma {:induction false} HoldLasts(d: Disk, run: seq<Event>, f: Fence)
    requires Inv(d) && IsRun(d, run) && RunsUnder(d, f) && Undisturbed(d, run, EntryOf(f))
    ensures RunsUnder(After(d, run), f)
    decreases |run|
  {
    hide Inv, Next, RunsUnder, Disturbs;
    if run != [] {
      HasEntry(d, f);
      HoldStep(d, run[0], f);
      EventKeeps(d, run[0]);
      HoldLasts(Next(d, run[0]), run[1..], f);
    }
  }

  lemma HasEntry(d: Disk, f: Fence)
    requires RunsUnder(d, f)
    ensures f.lease.Some?
  {
  }

  /**
   * The holder's "done" lands: until a takeover, put-back, drop or completion of its entry takes effect, finishing
   * with the ticket is applied, expired or not, whatever else was called or interrupted.
   */
  lemma HolderFinishes(d: Disk, run: seq<Event>, f: Fence, status: string, env: Env)
    requires Inv(d) && IsRun(d, run) && RunsUnder(d, f) && Undisturbed(d, run, EntryOf(f))
    requires OutcomeOf(status).Some?
    ensures var after := After(d, run);
            var plan := PlanOf(after, Ticket(f, Complete(status)), env);
            && RunsUnder(after, f)
            && plan.reply == Mutation(Applied, ExecutionFence(LiveRow(after, EntryOf(f))))
            && |plan.finished| == 1 && plan.finished[0].entry == Snapshot(LiveRow(after, EntryOf(f)))
            && plan.finished[0].outcome == OutcomeOf(status).value
  {
    HoldLasts(d, run, f);
  }

  /** The row was handed out with the numbers of ticket `f`, whatever its status now. */
  ghost predicate Issued(e: Entry, f: Fence) {
    e.leaseGen > 0 && ExactFenceMatches(e, f)
  }

  lemma StillIssued(a: Entry, b: Entry, f: Fence)
    requires Grows(a, b) && Issued(a, f) && Ticketed(a) && b.leaseGen == a.leaseGen
    ensures Issued(b, f)
  {
    hide SameRepository;
  }

  /**
   * A put-back may be repeated: as long as the entry waits and was not handed out again, the same ticket gets
   * `AlreadyApplied` and nothing changes; if it was put on hold meanwhile, the ticket gets `NotAssigned`.
   */
  lemma PutBackRepeats(d: Disk, ev: Event, run: seq<Event>, f: Fence, env: Env)
    requires Inv(d) && Possible(d, ev) && ev.cut.None? && ev.call == Ticket(f, PutBack)
    requires PlanOf(d, ev.call, ev.env).reply == Mutation(Applied, None)
    requires IsRun(Next(d, ev), run) && IsLive(After(Next(d, ev), run), EntryOf(f))
    requires LiveRow(After(Next(d, ev), run), EntryOf(f)).leaseGen == f.lease.value.generation
    requires LiveRow(After(Next(d, ev), run), EntryOf(f)).status != Assigned
    ensures var after := After(Next(d, ev), run);
            PlanOf(after, Ticket(f, PutBack), env)
            == Unchanged(after.live,
                         if LiveRow(after, EntryOf(f)).status == Pending then Mutation(AlreadyApplied, None)
                         else Mutation(NotAssigned, None))
  {
    hide Inv, Next, Advances, Perform;
    EventKeeps(d, ev);
    PutBackLeaves(d, ev, f);
    var put, after, id := Next(d, ev), After(Next(d, ev), run), EntryOf(f);
    RunAdvances(put, run);
    VersionAdvances(put, after, id);
    StillIssued(Version(put, id).value, Version(after, id).value, f);
    WaitingReply(after, f, env);
  }

  lemma PutBackLeaves(d: Disk, ev: Event, f: Fence)
    requires Inv(d) && Possible(d, ev) && ev.cut.None? && ev.call == Ticket(f, PutBack) && Inv(Next(d, ev))
    requires PlanOf(d, ev.call, ev.env).reply == Mutation(Applied, None)
    ensures f.lease.Some? && IsLive(Next(d, ev), EntryOf(f))
    ensures Issued(Version(Next(d, ev), EntryOf(f)).value, f) && Ticketed(Version(Next(d, ev), EntryOf(f)).value)
  {
    hide Inv, SameRepository;
    UniqueLive(Next(d, ev));
    var i := Position(d.live.entries, EntryOf(f)).value;
    InvRow(d, i);
    LiveIs(Next(d, ev), Next(d, ev).live.entries[i]);
  }

  lemma WaitingReply(d: Disk, f: Fence, env: Env)
    requires f.lease.Some? && IsLive(d, EntryOf(f)) && LiveRow(d, EntryOf(f)).status != Assigned
    requires ExactFenceMatches(Snapshot(LiveRow(d, EntryOf(f))), f)
    ensures PlanOf(d, Ticket(f, PutBack), env)
            == Unchanged(d.live, if LiveRow(d, EntryOf(f)).status == Pending then Mutation(AlreadyApplied, None)
                                 else Mutation(NotAssigned, None))
  {
    hide SameRepository;
  }

  // ---------------------------------------------------------------------
  // Finishing once
  // ---------------------------------------------------------------------

  /** The old-style "done" fits the live row: it runs, and the workflow the caller names is the row's. */
  predicate Fits(d: Disk, id: string, workflowRef: Option<string>, doneBy: Option<string>) {
    && IsLive(d, id)
    && var e := LiveRow(d, id);
       && e.status == Assigned
       && (workflowRef.None? || e.dispatch.None? || Some(e.dispatch.value.workflowRef) == workflowRef)
       && (doneBy.None? || e.workflowId.None? || e.workflowId == doneBy)
  }

  /** An old-style "done" finishes its row exactly when it fits and its status is terminal; else nothing changes. */
  lemma OldStyleDoneIsExact(d: Disk, id: string, status: string, workflowRef: Option<string>, doneBy: Option<string>,
                            env: Env)
    requires Inv(d)
    ensures var plan := PlanOf(d, Completion(id, status, workflowRef, doneBy), env);
            if OutcomeOf(status).None? then plan == Unchanged(d.live, BackendError)
            else if !Fits(d, id, workflowRef, doneBy) then plan == Unchanged(d.live, Changed(false, true))
            else
              var i, e := Position(d.live.entries, id).value, LiveRow(d, id);
              plan == Plan(Queue(d.live.entries[..i] + d.live.entries[i + 1..], d.live.counters),
                           [Record(OutcomeOf(status).value, env.now, "queue/completion", e.(dispatch := None))],
                           Changed(true, false))
  {
    hide Inv;
    UniqueLive(d);
    var p := CompletionTarget(d.live.entries, id, workflowRef, doneBy);
    if p.Some? {
      LiveIs(d, d.live.entries[p.value]);
      PositionOf(d.live.entries, d.live.entries[p.value]);
    }
  }

  /** `ev` takes entry `id` out of the queue. */
  ghost predicate Finishes(d: Disk, ev: Event, id: string)
    requires Supplied(ev.call, ev.env)
  {
    ev.cut.None? && id in LogIds(PlanOf(d, ev.call, ev.env).finished)
  }

  lemma FinishedIsDone(d: Disk, ev: Event, id: string)
    requires Inv(d) && Possible(d, ev) && Finishes(d, ev, id)
    ensures IsLive(d, id) && IsDone(Next(d, ev), id)
    ensures MayFinish(ev.call, ev.env, PlanOf(d, ev.call, ev.env).reply, LiveRow(d, id), DoneRecord(Next(d, ev), id))
    ensures DoneRecord(Next(d, ev), id) in PlanOf(d, ev.call, ev.env).finished
  {
    hide Inv, Perform, MayFinish, MayChange, Recall;
    EventMoves(d, ev);
    UniqueLive(d);
    var plan := PlanOf(d, ev.call, ev.env);
    var r :| r in plan.finished && r.entry.id == id;
    var e :| e in d.live.entries && MayFinish(ev.call, ev.env, plan.reply, e, r);
    FinishKeepsId(ev.call, ev.env, plan.reply, e, r);
    LiveIs(d, e);
    assert forall x :: x in plan.queue.entries ==> x.id != id;
    RowAfter(d, ev, id);
    FinishedRecord(d.live, ev.call, ev.env, plan, e);
    LastForEntryConcat(d.log, plan.finished, id);
    LastForEntryIs(plan.finished, id);
  }

  /** An entry is finished at most once in a run, and never runs or waits again. */
  lemma FinishesOnce(d: Disk, first: Event, mid: seq<Event>, second: Event, id: string)
    requires Inv(d) && Possible(d, first) && IsRun(Next(d, first), mid)
    requires Possible(After(Next(d, first), mid), second)
    requires Finishes(d, first, id)
    ensures !IsLive(After(Next(d, first), mid), id)
    ensures !Finishes(After(Next(d, first), mid), second, id)
  {
    hide Inv, Next, Finishes, MayFinish, PlanOf;
    EventKeeps(d, first);
    FinishedIsDone(d, first, id);
    RunAdvances(Next(d, first), mid);
    if Finishes(After(Next(d, first), mid), second, id) {
      FinishedIsDone(After(Next(d, first), mid), second, id);
    }
  }

  /**
   * After a "done" was applied, every repetition of it with the same ticket is acknowledged with the first outcome
   * kept, and everything else about the entry is turned away, for ever.
   */
  lemma DoneIsFinal(d: Disk, ev: Event, run: seq<Event>, other: Fence, op: TicketOp, env: Env)
    requires Inv(d) && Possible(d, ev) && IsRun(Next(d, ev), run)
    requires ev.cut.None? && ev.call.Ticket? && ev.call.op.Complete?
    requires PlanOf(d, ev.call, ev.env).reply.Mutation? && PlanOf(d, ev.call, ev.env).reply.outcome == Applied
    requires other.lease.Some? && EntryOf(other) == EntryOf(ev.call.fence) && ValidTicket(other, op)
    ensures var after := After(Next(d, ev), run);
            var id := EntryOf(ev.call.fence);
            var plan := PlanOf(after, Ticket(other, op), env);
            && IsDone(after, id) && Some(DoneRecord(after, id).outcome) == OutcomeOf(ev.call.op.status)
            && ExactFenceMatches(DoneRecord(after, id).entry, ev.call.fence)
            && plan.queue == after.live && plan.finished == []
            && plan.reply == (if op.Complete? && ExactFenceMatches(DoneRecord(after, id).entry, other)
                              then Mutation(AlreadyApplied, PlanOf(d, ev.call, ev.env).reply.execution)
                              else Mutation(NotAssigned, None))
  {
    hide Inv, Advances, SameRepository;
    var id := EntryOf(ev.call.fence);
    var plan := PlanOf(d, ev.call, ev.env);
    DoneFinishes(d, ev);
    EventKeeps(d, ev);
    RunAdvances(Next(d, ev), run);
    DoneStays(Next(d, ev), After(Next(d, ev), run), id);
  }

  lemma DoneStays(d: Disk, after: Disk, id: string)
    requires Advances(d, after) && IsDone(d, id)
    ensures IsDone(after, id) && DoneRecord(after, id) == DoneRecord(d, id)
  {
  }

  lemma DoneFinishes(d: Disk, ev: Event)
    requires Inv(d) && Possible(d, ev)
    requires ev.cut.None? && ev.call.Ticket? && ev.call.op.Complete?
    requires PlanOf(d, ev.call, ev.env).reply.Mutation? && PlanOf(d, ev.call, ev.env).reply.outcome == Applied
    ensures ev.call.fence.lease.Some?
    ensures var id := EntryOf(ev.call.fence);
            && IsDone(Next(d, ev), id)
            && var r := DoneRecord(Next(d, ev), id);
               && Some(r.outcome) == OutcomeOf(ev.call.op.status) && r.outcome != Dropped
               && ExactFenceMatches(r.entry, ev.call.fence)
               && PlanOf(d, ev.call, ev.env).reply.execution == ExecutionFence(r.entry)
  {
    hide Inv, SameRepository;
    var plan := PlanOf(d, ev.call, ev.env);
    var id := EntryOf(ev.call.fence);
    assert plan.finished[0] in plan.finished;
    FinishedIsDone(d, ev, id);
  }
}
