/** The ticketed calls field by field: what a row and its ticket hold after each of them, and who is turned away. */
module TicketedRows {
  import opened Wrappers
  import opened Text
  import opened QueueState
  import opened QueueHistory
  import opened QueueService
  import opened FencedQueue
  import opened Machine
  import opened Effects
  import opened Invariant
  import opened Runs
  import opened HandOutScan
  import opened HandOuts
  import opened Fencing
  import opened Finishing
  import opened Ownership
  import opened Copies
  import opened Idempotency
  import opened Wakeups

  // ---------------------------------------------------------------------
  // Tickets
  // ---------------------------------------------------------------------

  /** A row with nothing missing has a ticket, and the ticket shows the row's own values. */
  lemma TicketShowsRow(e: Entry)
    ensures ExecutionFence(e).Some? <==>
              && e.subject.Some? && e.subject.value != "" && e.subjectGen.Some? && e.subjectGen.value > 0
              && e.workflowId.Some? && e.workflowId.value != "" && e.workflowGen.Some? && e.workflowGen.value > 0
              && e.owner.Some? && e.owner.value != "" && e.leaseGen > 0 && e.expiresAt.Some?
    ensures ExecutionFence(e).Some? ==>
              var f := ExecutionFence(e).value;
              && f.schema == FENCE_SCHEMA && f.version == FENCE_VERSION
              && f.workflowId == e.workflowId.value && f.workflowGen == e.workflowGen.value
              && f.subject == Some(SubjectGeneration(e.subject.value, e.subjectGen.value))
              && f.lease == Some(LeaseFence(e.id, e.owner.value, e.leaseGen, e.expiresAt.value))
              && f.repository == e.repository
  {
  }

  /** The same ticket but for its expiry and the spelling of its repository. */
  ghost predicate SameTicket(f: Fence, g: Fence) {
    && f.schema == g.schema && f.version == g.version
    && f.workflowId == g.workflowId && f.workflowGen == g.workflowGen && f.subject == g.subject
    && f.lease.Some? && g.lease.Some?
    && f.lease.value.entryId == g.lease.value.entryId && f.lease.value.owner == g.lease.value.owner
    && f.lease.value.generation == g.lease.value.generation
    && f.repository.Some? == g.repository.Some?
    && (f.repository.Some? ==>
          && f.repository.value.folded == g.repository.value.folded
          && f.repository.value.baseRef == g.repository.value.baseRef
          && f.repository.value.headRef == g.repository.value.headRef)
  }

  /** A ticket fits a row exactly if it is the row's own, but for its expiry and the spelling of its repository. */
  lemma FitsExactly(e: Entry, f: Fence)
    requires ExecutionFence(e).Some?
    ensures ExactFenceMatches(e, f) <==> SameTicket(f, ExecutionFence(e).value)
  {
  }

  // ---------------------------------------------------------------------
  // Hand-outs
  // ---------------------------------------------------------------------

  /** `f` is waiting row `e` handed out to `owner` at `now` until `expires`, field by field. */
  ghost predicate GivenTo(e: Entry, f: Entry, owner: string, now: Instant, expires: Instant) {
    && e.status == Pending && f.status == Assigned
    && (e.runAt.Some? && e.runAt.value.instant.Some? ==> e.runAt.value.instant.value <= now)
    && f.owner == Some(owner) && f.leaseGen == e.leaseGen + 1 && f.expiresAt == Some(expires)
    && f.assignedAt == Some(now) && f.heldAt == None
    && f.workflowGen == (if e.workflowGen.Some? then e.workflowGen else Some(1))
    && f.workflowId.Some? && f.workflowId.value != ""
    && (e.workflowId.Some? && e.workflowId.value != "" ==> f.workflowId == e.workflowId)
    && (if e.subjectGen.Some? then f.subject == e.subject && f.subjectGen == e.subjectGen
        else e.dispatch.Some? && f.subject == e.dispatch.value.canonicalId && f.subjectGen.Some?)
    && f.id == e.id && f.taskId == e.taskId && f.dispatch == e.dispatch && f.runAt == e.runAt
    && f.expireAfter == e.expireAfter && f.repository == e.repository
    && f.key == e.key && f.hash == e.hash && f.extraKeys == e.extraKeys
  }

  /** What a ticketed hand-out makes of each row it gives, and what the ticket says. */
  lemma HandOutIsExact(d: Disk, req: LeaseRequest, env: Env, g: Grant) returns (e: Entry)
    requires Inv(d) && PlanLeaseV2(d.live, req, env).reply.Granted? && g in PlanLeaseV2(d.live, req, env).reply.leased
    ensures e in d.live.entries && g.entry in PlanLeaseV2(d.live, req, env).queue.entries
    ensures !PastWindow(e, env.now)
    ensures GivenTo(e, g.entry, Trim(req.owner), env.now, env.now + env.ttlLimit * SECOND)
    ensures g.fence.lease
            == Some(LeaseFence(e.id, Trim(req.owner), e.leaseGen + 1, env.now + env.ttlLimit * SECOND))
    ensures g.entry.workflowId == Some(g.fence.workflowId) && g.entry.workflowGen == Some(g.fence.workflowGen)
    ensures g.fence.subject.Some? && g.fence.repository == e.repository
    ensures g.entry.subject == Some(g.fence.subject.value.qualifiedId)
    ensures g.entry.subjectGen == Some(g.fence.subject.value.generation)
  {
    hide Inv, PlanLeaseV2, Kept, PastWindow;
    e := GrantIsRow(d, req, env, g);
    SweepIsExact(d.live, env.now, e);
  }

  /**
   * A ticket lasts its full length: as long as nobody disturbs the entry, until the ticket length has passed since the
   * hand-out the holder's renewal is applied and another owner's takeover is told that the ticket is live.
   */
  lemma TicketLasts(d: Disk, ev: Event, run: seq<Event>, f: Fence, env: Env, ttl: Option<nat>, newOwner: string)
    requires Inv(d) && Possible(d, ev) && Issues(d, ev, f) && ev.call.LeaseV2? && f.lease.Some?
    requires IsRun(Next(d, ev), run) && Undisturbed(Next(d, ev), run, EntryOf(f))
    requires env.now < ev.env.now + ev.env.ttlLimit * SECOND && ttl != Some(0)
    requires Trim(newOwner) != "" && Trim(newOwner) != f.lease.value.owner
    ensures var after := After(Next(d, ev), run);
            && PlanOf(after, Ticket(f, Renew(ttl)), env).reply.Mutation?
            && PlanOf(after, Ticket(f, Renew(ttl)), env).reply.outcome == Applied
            && PlanOf(after, Ticket(f, Recover(newOwner, ttl)), env).reply.Mutation?
            && PlanOf(after, Ticket(f, Recover(newOwner, ttl)), env).reply.outcome == LeaseStillLive
  {
    hide Inv, Next, Issues, Possible, Advances, RunsUnder, Perform, PlanLeaseV2;
    var given, after, id := Next(d, ev), After(Next(d, ev), run), EntryOf(f);
    IssueRaises(d, ev, f);
    TicketIsHeld(d, ev, f);
    EventKeeps(d, ev);
    HoldLasts(given, run, f);
    RunAdvances(given, run);
    IssuedUntil(d, ev, f);
    VersionAdvances(given, after, id);
    StillLive(given, after, f);
    HolderRenews(after, f, ttl, env);
    OtherTakesOver(after, f, newOwner, ttl, env);
  }

  lemma IssuedUntil(d: Disk, ev: Event, f: Fence)
    requires Inv(d) && Possible(d, ev) && Issues(d, ev, f) && ev.call.LeaseV2?
    ensures f.lease.Some? && f.lease.value.expiresAt == ev.env.now + ev.env.ttlLimit * SECOND
  {
    hide Inv, PlanLeaseV2;
    var g :| g in PlanLeaseV2(d.live, ev.call.lease, ev.env).reply.leased && g.fence == f;
    var e := HandOutIsExact(d, ev.call.lease, ev.env, g);
  }

  lemma StillLive(d: Disk, after: Disk, f: Fence)
    requires f.lease.Some? && IsLive(d, EntryOf(f)) && RunsUnder(after, f)
    requires ExecutionFence(LiveRow(d, EntryOf(f))) == Some(f)
    requires Version(after, EntryOf(f)).Some?
    requires Grows(Version(d, EntryOf(f)).value, Version(after, EntryOf(f)).value)
    ensures IsLive(after, EntryOf(f))
    ensures var e := LiveRow(after, EntryOf(f)); e.expiresAt.Some? && f.lease.value.expiresAt <= e.expiresAt.value
    ensures ExecutionFence(LiveRow(after, EntryOf(f))).Some? ==>
              ExecutionFence(LiveRow(after, EntryOf(f))).value.lease == Some(LeaseFence(
                EntryOf(f), f.lease.value.owner, f.lease.value.generation, LiveRow(after, EntryOf(f)).expiresAt.value))
  {
    hide SameRepository;
  }

  // ---------------------------------------------------------------------
  // The holder's calls
  // ---------------------------------------------------------------------

  /** Where the entry stands in the queue. */
  function Place(d: Disk, f: Fence): nat
    requires f.lease.Some? && IsLive(d, EntryOf(f))
  {
    Position(d.live.entries, EntryOf(f)).value
  }

  /** A put-back is applied whatever the expiry: the row waits again, and is otherwise as it was. */
  lemma PutBackIsExact(d: Disk, f: Fence, env: Env)
    requires RunsUnder(d, f)
    ensures var e := LiveRow(d, EntryOf(f));
            PlanOf(d, Ticket(f, PutBack), env)
            == Plan(Queue(d.live.entries[Place(d, f) := e.(status := Pending, assignedAt := None)], d.live.counters),
                    [], Mutation(Applied, None))
  {
    hide SameRepository;
  }

  /** A renewal of a live ticket moves the expiry, never back, and changes nothing else of the row. */
  lemma RenewalIsExact(d: Disk, f: Fence, ttl: Option<nat>, env: Env)
    requires RunsUnder(d, f) && ttl != Some(0)
    requires var e := LiveRow(d, EntryOf(f)); e.expiresAt.Some? && env.now < e.expiresAt.value
    ensures var e := LiveRow(d, EntryOf(f));
            var asked := env.now + RequestedTtl(ttl, env.ttlLimit) * SECOND;
            var after := e.(expiresAt := Some(if e.expiresAt.value < asked then asked else e.expiresAt.value));
            PlanOf(d, Ticket(f, Renew(ttl)), env)
            == Plan(Queue(d.live.entries[Place(d, f) := after], d.live.counters), [],
                    Mutation(Applied, ExecutionFence(after)))
  {
    hide SameRepository, ExecutionFence, RequestedTtl;
  }

  /** A takeover of an expired ticket sets owner, expiry and the next generation, and nothing else of the row. */
  lemma TakeoverIsExact(d: Disk, f: Fence, newOwner: string, ttl: Option<nat>, env: Env)
    requires RunsUnder(d, f) && ttl != Some(0) && Trim(newOwner) != "" && Trim(newOwner) != f.lease.value.owner
    requires var e := LiveRow(d, EntryOf(f)); e.expiresAt.Some? && e.expiresAt.value <= env.now
    ensures var e := LiveRow(d, EntryOf(f));
            var until := env.now + RequestedTtl(ttl, env.ttlLimit) * SECOND;
            var after := e.(owner := Some(Trim(newOwner)), leaseGen := e.leaseGen + 1, expiresAt := Some(until));
            PlanOf(d, Ticket(f, Recover(newOwner, ttl)), env)
            == Plan(Queue(d.live.entries[Place(d, f) := after], d.live.counters), [],
                    Mutation(Applied, ExecutionFence(after)))
  {
    hide SameRepository, ExecutionFence, RequestedTtl, Trim;
  }

  /** A "done" takes the row out and records it, without its dispatch, under the outcome the status word names. */
  lemma DoneIsExact(d: Disk, f: Fence, status: string, env: Env)
    requires RunsUnder(d, f) && OutcomeOf(status).Some?
    ensures var e := LiveRow(d, EntryOf(f));
            PlanOf(d, Ticket(f, Complete(status)), env)
            == Plan(Queue(d.live.entries[..Place(d, f)] + d.live.entries[Place(d, f) + 1..], d.live.counters),
                    [Record(OutcomeOf(status).value, env.now, "queue/v2/completion", e.(dispatch := None))],
                    Mutation(Applied, ExecutionFence(e)))
  {
    hide SameRepository, ExecutionFence;
  }

  /** Asking for a put-back twice is harmless. */
  lemma PutBackTwice(d: Disk, ev: Event, f: Fence, env: Env)
    requires Inv(d) && Possible(d, ev) && ev.cut.None? && ev.call == Ticket(f, PutBack) && RunsUnder(d, f)
    ensures PlanOf(Next(d, ev), Ticket(f, PutBack), env) == Unchanged(Next(d, ev).live, Mutation(AlreadyApplied, None))
  {
    hide Inv, Perform, SameRepository;
    PutBackIsExact(d, f, ev.env);
    EventKeeps(d, ev);
    UniqueLive(Next(d, ev));
    LiveIs(Next(d, ev), Next(d, ev).live.entries[Place(d, f)]);
    PutBackFits(LiveRow(d, EntryOf(f)), f);
    WaitingReply(Next(d, ev), f, env);
  }

  lemma PutBackFits(e: Entry, f: Fence)
    requires ExactFenceMatches(e, f)
    ensures ExactFenceMatches(Snapshot(e.(status := Pending, assignedAt := None)), f)
  {
  }

  /**
   * A row put back is handed out again by the next hand-out that looks at it and has nothing against it, under the same
   * workflow and with the lease generation one higher.
   */
  lemma PutBackIsHandedOut(d: Disk, ev: Event, f: Fence, req: LeaseRequest, env: Env, k: nat) returns (g: Grant)
    requires Inv(d) && Possible(d, ev) && ev.cut.None? && ev.call == Ticket(f, PutBack) && RunsUnder(d, f)
    requires LiveRow(d, EntryOf(f)).dispatch.Some? && ValidLease(req)
    requires var put := Next(d, ev);
             && k < |Decided(put, req, env)|
             && SweptRows(put, env)[LookedAt(put, req, env)[k]].id == EntryOf(f)
             && Unopposed(RowsAfter(put, req, env)[LookedAt(put, req, env)[k]], req.exclude, RowsAfter(put, req, env))
    ensures PlanLeaseV2(Next(d, ev).live, req, env).reply.Granted?
    ensures g in PlanLeaseV2(Next(d, ev).live, req, env).reply.leased
    ensures g.fence.lease == Some(LeaseFence(EntryOf(f), Trim(req.owner), f.lease.value.generation + 1,
                                             env.now + env.ttlLimit * SECOND))
    ensures g.fence.workflowId == f.workflowId && g.fence.workflowGen == f.workflowGen && g.fence.subject == f.subject
  {
    hide Inv, Perform, PlanLeaseV2, ValidLease, Decided, LookedAt, RowsAfter, Unopposed, SameRepository;
    var put := Next(d, ev);
    PutBackIsExact(d, f, ev.env);
    LiveOk(d, EntryOf(f));
    TicketShowsRow(LiveRow(d, EntryOf(f)));
    EventKeeps(d, ev);
    UniqueLive(put);
    var back := put.live.entries[Place(d, f)];
    var row := SweptRows(put, env)[LookedAt(put, req, env)[k]];
    SweptRow(put, env, LookedAt(put, req, env)[k]);
    ById(put.live.entries, back, row);
    GivenUnlessOpposed(put, req, env, k);
    g := Decided(put, req, env)[k].grant;
    var e := HandOutIsExact(put, req, env, g);
    RowKeepsId(put, req, env, LookedAt(put, req, env)[k]);
    ById(put.live.entries, back, e);
  }

  // ---------------------------------------------------------------------
  // Who is turned away
  // ---------------------------------------------------------------------

  /** A ticket call is malformed exactly if it has no ticket of a queue entry, asks for no time, or names no outcome. */
  lemma MalformedTicketCalls(fence: Fence, op: TicketOp)
    ensures ValidTicket(fence, op) <==>
              && fence.lease.Some?
              && (op.Renew? ==> op.ttl != Some(0)) && (op.Recover? ==> op.ttl != Some(0))
              && (op.Complete? ==> op.status == "completed" || op.status == "failed" || op.status == "cancelled")
    ensures forall d: Disk, env: Env :: !ValidTicket(fence, op) ==>
              PlanOf(d, Ticket(fence, op), env) == Unchanged(d.live, InvalidParams)
  {
    if op.Complete? {
      OutcomeWords(op.status);
    }
  }

  /** A call about a live entry that the ticket does not let through: the exact reply; nothing changes. */
  lemma TurnedAway(d: Disk, f: Fence, op: TicketOp, env: Env)
    requires ValidTicket(f, op) && IsLive(d, EntryOf(f)) && !RunsUnder(d, f)
    ensures var e := LiveRow(d, EntryOf(f));
            PlanOf(d, Ticket(f, op), env)
            == Unchanged(d.live,
                         if e.status == Assigned then Mutation(StaleFence, None)
                         else if op == PutBack && e.status == Pending && ExactFenceMatches(e, f)
                         then Mutation(AlreadyApplied, None)
                         else Mutation(NotAssigned, None))
  {
    hide ExactFenceMatches;
  }

  /** Taking a task over from oneself, or for nobody, is refused. */
  lemma TakeoverNeedsAnother(d: Disk, f: Fence, newOwner: string, ttl: Option<nat>, env: Env)
    requires RunsUnder(d, f) && ttl != Some(0) && (Trim(newOwner) == "" || Trim(newOwner) == f.lease.value.owner)
    ensures PlanOf(d, Ticket(f, Recover(newOwner, ttl)), env) == Unchanged(d.live, InvalidParams)
  {
    hide SameRepository, Trim;
  }

  /** A call about a finished entry: a "done" by the holder of an entry that was not dropped is already applied. */
  lemma FinishedIsExact(d: Disk, f: Fence, op: TicketOp, env: Env)
    requires ValidTicket(f, op) && IsDone(d, EntryOf(f))
    ensures var r := DoneRecord(d, EntryOf(f));
            PlanOf(d, Ticket(f, op), env)
            == Unchanged(d.live,
                         if op.Complete? && r.outcome != Dropped && ExactFenceMatches(r.entry, f)
                         then Mutation(AlreadyApplied, ExecutionFence(r.entry))
                         else Mutation(NotAssigned, None))
  {
    hide ExactFenceMatches, ExecutionFence, LastForEntry;
  }
}
