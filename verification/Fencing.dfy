/** Tickets over whole runs: numbers, identity, and who may still use a ticket. */
module Fencing {
  import opened Wrappers
  import opened QueueState
  import opened QueueHistory
  import opened FencedQueue
  import opened Machine
  import opened Effects
  import opened Invariant
  import opened Runs
  import opened HandOuts

  // ---------------------------------------------------------------------
  // Issuing tickets
  // ---------------------------------------------------------------------

  /** `ev` replies the new ticket `f`: a hand-out or a takeover. */
  ghost predicate Issues(d: Disk, ev: Event, f: Fence)
    requires Supplied(ev.call, ev.env)
  {
    var reply := PlanOf(d, ev.call, ev.env).reply;
    && ev.cut.None?
    && (|| (ev.call.LeaseV2? && reply.Granted? && exists g :: g in reply.leased && g.fence == f)
        || (ev.call.Ticket? && ev.call.op.Recover? && reply == Mutation(Applied, Some(f))))
  }

  /** `ev` renews a ticket, and replies it as `f`. */
  ghost predicate Renews(d: Disk, ev: Event, f: Fence)
    requires Supplied(ev.call, ev.env)
  {
    && ev.cut.None? && ev.call.Ticket? && ev.call.op.Renew?
    && PlanOf(d, ev.call, ev.env).reply == Mutation(Applied, Some(f))
  }

  function EntryOf(f: Fence): string
    requires f.lease.Some?
  {
    f.lease.value.entryId
  }

  lemma LiveIs(d: Disk, e: Entry)
    requires UniqueIds(d.live.entries) && e in d.live.entries
    ensures IsLive(d, e.id) && LiveRow(d, e.id) == e
  {
    PositionOf(d.live.entries, e);
  }

  lemma UniqueLive(d: Disk)
    requires Inv(d)
    ensures UniqueIds(d.live.entries)
  {
  }

  /** A hand-out or takeover raises the entry's lease generation by exactly one, and the new ticket is the row's own. */
  lemma IssueRaises(d: Disk, ev: Event, f: Fence)
    requires Inv(d) && Possible(d, ev) && Issues(d, ev, f)
    ensures f.lease.Some? && IsLive(d, EntryOf(f)) && IsLive(Next(d, ev), EntryOf(f))
    ensures ExecutionFence(LiveRow(Next(d, ev), EntryOf(f))) == Some(f)
    ensures LiveRow(Next(d, ev), EntryOf(f)).leaseGen == LiveRow(d, EntryOf(f)).leaseGen + 1 == f.lease.value.generation
    ensures LiveRow(Next(d, ev), EntryOf(f)).status == Assigned
    ensures ev.call.LeaseV2? ==> LiveRow(d, EntryOf(f)).status == Pending
    ensures ev.call.Ticket? ==>
              LiveRow(d, EntryOf(f)).status == Assigned && !LeaseIsLive(LiveRow(d, EntryOf(f)), ev.env.now)
  {
    hide Inv, FullScan;
    EventKeeps(d, ev);
    UniqueLive(d);
    UniqueLive(Next(d, ev));
    if ev.call.LeaseV2? {
      HandOutRaises(d, ev, f);
    } else {
      var i := Position(d.live.entries, ev.call.fence.lease.value.entryId).value;
      LiveIs(Next(d, ev), Next(d, ev).live.entries[i]);
    }
  }

  lemma HandOutRaises(d: Disk, ev: Event, f: Fence)
    requires Inv(d) && Possible(d, ev) && Issues(d, ev, f) && ev.call.LeaseV2?
    requires UniqueIds(d.live.entries) && UniqueIds(Next(d, ev).live.entries)
    ensures f.lease.Some? && IsLive(d, EntryOf(f)) && IsLive(Next(d, ev), EntryOf(f))
    ensures ExecutionFence(LiveRow(Next(d, ev), EntryOf(f))) == Some(f)
    ensures LiveRow(Next(d, ev), EntryOf(f)).leaseGen == LiveRow(d, EntryOf(f)).leaseGen + 1
    ensures LiveRow(Next(d, ev), EntryOf(f)).status == Assigned
    ensures LiveRow(d, EntryOf(f)).status == Pending
  {
    hide Inv, PlanLeaseV2;
    var g :| g in PlanLeaseV2(d.live, ev.call.lease, ev.env).reply.leased && g.fence == f;
    var e := GrantIsRow(d, ev.call.lease, ev.env, g);
    LiveIs(d, e);
    LiveIs(Next(d, ev), g.entry);
  }

  /** Nothing else moves a lease generation. */
  lemma OnlyIssuesRaise(d: Disk, ev: Event, id: string)
    requires Inv(d) && Possible(d, ev) && IsLive(d, id) && IsLive(Next(d, ev), id)
    ensures var before, after := LiveRow(d, id), LiveRow(Next(d, ev), id);
            || after.leaseGen == before.leaseGen
            || (ExecutionFence(after).Some? && Issues(d, ev, ExecutionFence(after).value))
  {
    hide Perform, Inv, SameRepository;
    if ev.cut.None? {
      RowAfter(d, ev, id);
      EventKeeps(d, ev);
      LiveOk(Next(d, ev), id);
      var e, f := LiveRow(d, id), LiveRow(Next(d, ev), id);
      var reply := PlanOf(d, ev.call, ev.env).reply;
      if ev.call.LeaseV2? && f.leaseGen != e.leaseGen {
        assert LeaseChange(ev.call.lease, ev.env, reply.leased, e, f);
        var g := Grant(f, ExecutionFence(f).value);
        assert g in reply.leased && g.fence == ExecutionFence(f).value;
      }
    }
  }

  lemma LiveOk(d: Disk, id: string)
    requires Inv(d) && IsLive(d, id)
    ensures RowOk(LiveRow(d, id), d.live.counters)
  {
  }

  /** A number given to a new ticket of an entry is above every earlier one: none is ever used twice. */
  lemma NumbersNeverReused(d: Disk, first: Event, mid: seq<Event>, second: Event, f: Fence, g: Fence)
    requires Inv(d) && Possible(d, first) && IsRun(Next(d, first), mid)
    requires Possible(After(Next(d, first), mid), second)
    requires Issues(d, first, f) && Issues(After(Next(d, first), mid), second, g)
    requires f.lease.Some? && g.lease.Some? && EntryOf(f) == EntryOf(g)
    ensures f.lease.value.generation < g.lease.value.generation
  {
    hide Inv, Next, Issues;
    EventKeeps(d, first);
    IssueRaises(d, first, f);
    RunAdvances(Next(d, first), mid);
    VersionAdvances(Next(d, first), After(Next(d, first), mid), EntryOf(f));
    IssueRaises(After(Next(d, first), mid), second, g);
  }

  // ---------------------------------------------------------------------
  // Stale tickets
  // ---------------------------------------------------------------------

  /** A call that is turned away: it changes nothing and finds no ticket of its own. */
  predicate Refused(d: Disk, plan: Plan) {
    && plan.queue == d.live && plan.finished == []
    && (|| plan.reply == InvalidParams
        || plan.reply == Mutation(NotAssigned, None)
        || plan.reply == Mutation(StaleFence, None))
  }

  lemma MismatchRefused(d: Disk, fence: Fence, op: TicketOp, env: Env)
    requires fence.lease.Some? && Version(d, EntryOf(fence)).Some?
    requires !ExactFenceMatches(Version(d, EntryOf(fence)).value, fence)
    ensures Refused(d, PlanOf(d, Ticket(fence, op), env))
  {
    hide SameRepository;
    var id := EntryOf(fence);
    if IsLive(d, id) {
      assert ExactFenceMatches(LiveRow(d, id), fence) == ExactFenceMatches(Version(d, id).value, fence);
    }
  }

  /** A ticket call is answered `NotFound` exactly when the files never held its entry. */
  lemma NotFoundIsUnknown(d: Disk, fence: Fence, op: TicketOp, env: Env)
    requires ValidTicket(fence, op)
    ensures PlanOf(d, Ticket(fence, op), env).reply == Mutation(NotFound, None) <==> Version(d, EntryOf(fence)).None?
    ensures Version(d, EntryOf(fence)).None? <==>
              EntryOf(fence) !in Ids(d.live.entries) && EntryOf(fence) !in LogIds(d.log)
  {
    hide ExactFenceMatches, ExecutionFence, LastForEntry;
    LastForEntryIs(d.log, EntryOf(fence));
  }

  /**
   * Once an entry's lease generation has risen past a ticket's, no renewal, takeover, "done" or put-back with that
   * ticket is applied again, whatever happens in between.
   */
  lemma StaleTicketRefused(d: Disk, run: seq<Event>, fence: Fence, op: TicketOp, env: Env)
    requires Inv(d) && IsRun(d, run)
    requires fence.lease.Some? && Version(d, EntryOf(fence)).Some?
    requires fence.lease.value.generation < Version(d, EntryOf(fence)).value.leaseGen
    ensures Refused(After(d, run), PlanOf(After(d, run), Ticket(fence, op), env))
  {
    hide Inv, PlanOf;
    RunAdvances(d, run);
    MismatchRefused(After(d, run), fence, op, env);
  }

  // ---------------------------------------------------------------------
  // Identity
  // ---------------------------------------------------------------------

  /** The tickets of one entry: the same work, and one owner per number. */
  ghost predicate SameWork(f: Fence, g: Fence) {
    && f.lease.Some? && g.lease.Some? && EntryOf(f) == EntryOf(g)
    && f.workflowId == g.workflowId && f.workflowGen == g.workflowGen
    && f.subject == g.subject && f.repository == g.repository
    && f.lease.value.generation <= g.lease.value.generation
    && (f.lease.value.generation == g.lease.value.generation ==>
          f.lease.value.owner == g.lease.value.owner && f.lease.value.expiresAt <= g.lease.value.expiresAt)
  }

  /** From the first hand-out to the finish, every ticket of an entry names the same work. */
  lemma TicketsAgree(d: Disk, run: seq<Event>, id: string)
    requires Inv(d) && IsRun(d, run)
    requires Version(d, id).Some? && Version(d, id).value.leaseGen > 0
    ensures Version(After(d, run), id).Some?
    ensures var f, g := ExecutionFence(Version(d, id).value), ExecutionFence(Version(After(d, run), id).value);
            f.Some? && g.Some? && SameWork(f.value, g.value)
  {
    hide Inv, Advances;
    RunAdvances(d, run);
    VersionOk(d, id);
    VersionAdvances(d, After(d, run), id);
    VersionOk(After(d, run), id);
  }

  lemma VersionAdvances(d: Disk, after: Disk, id: string)
    requires Advances(d, after) && Version(d, id).Some?
    ensures Version(after, id).Some? && Grows(Version(d, id).value, Version(after, id).value)
  {
  }

  lemma VersionOk(d: Disk, id: string)
    requires Inv(d) && Version(d, id).Some?
    ensures RowOk(Version(d, id).value, d.live.counters) && Version(d, id).value.id == id
  {
    if !IsLive(d, id) {
      LastForEntryIs(d.log, id);
    }
  }
}
