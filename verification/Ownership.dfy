/** Tickets in time: who owns an entry when, on a clock that does not run backwards. */
module Ownership {
  import opened Wrappers
  import opened Text
  import opened QueueState
  import opened FencedQueue
  import opened Machine
  import opened Effects
  import opened Invariant
  import opened Runs
  import opened Fencing
  import opened Finishing

  /** The clock never runs backwards along the run. */
  ghost predicate Clocked(from: Instant, run: seq<Event>)
    decreases |run|
  {
    run == [] || (from <= run[0].env.now && Clocked(run[0].env.now, run[1..]))
  }

  function Latest(from: Instant, run: seq<Event>): Instant {
    if run == [] then from else run[|run| - 1].env.now
  }

  /** A put-back of the entry takes effect. */
  ghost predicate PutsBack(d: Disk, ev: Event, id: string)
    requires Supplied(ev.call, ev.env)
  {
    && ev.cut.None? && ev.call.Ticket? && ev.call.op.PutBack?
    && ev.call.fence.lease.Some? && EntryOf(ev.call.fence) == id
    && PlanOf(d, ev.call, ev.env).reply == Mutation(Applied, None)
  }

  ghost predicate NeverPutBack(d: Disk, run: seq<Event>, id: string)
    requires IsRun(d, run)
    decreases |run|
  {
    run == [] || (!PutsBack(d, run[0], id) && NeverPutBack(Next(d, run[0]), run[1..], id))
  }

  /** A ticket valid until `until` is still the entry's own, or `until` has passed, or the entry is finished. */
  ghost predicate Covered(d: Disk, id: string, until: Instant, clock: Instant) {
    && Version(d, id).Some?
    && (IsLive(d, id) ==>
          Covers(LiveRow(d, id), until, clock))
  }

  predicate Covers(e: Entry, until: Instant, clock: Instant) {
    e.status == Assigned && Ticketed(e) && (until <= clock || (e.expiresAt.Some? && until <= e.expiresAt.value))
  }

  /** A running ticketed row stays covered in every change but a put-back. */
  lemma CoverChange(call: Call, env: Env, reply: Reply, e: Entry, f: Entry, until: Instant, clock: Instant)
    requires RowChange(call, env, reply, e, f) && Covers(e, until, clock) && clock <= env.now
    requires !(call.Ticket? && call.op.PutBack? && reply == Mutation(Applied, None))
    ensures Covers(f, until, env.now)
  {
    hide ExactFenceMatches, HandsOut, ExecutionFence;
  }

  lemma TicketEntry(fence: Fence, op: TicketOp, env: Env, reply: Reply, e: Entry, f: Entry)
    requires MayChange(Ticket(fence, op), env, reply, e, f)
    ensures fence.lease.Some? && EntryOf(fence) == e.id
  {
  }

  lemma CoverStep(d: Disk, ev: Event, id: string, until: Instant, clock: Instant)
    requires Inv(d) && Possible(d, ev) && Covered(d, id, until, clock)
    requires clock <= ev.env.now && !PutsBack(d, ev, id)
    ensures Covered(Next(d, ev), id, until, ev.env.now)
  {
    hide Inv, Perform, MayChange, MayFinish, Covers, Advances;
    EventAdvances(d, ev);
    VersionAdvances(d, Next(d, ev), id);
    if !IsLive(d, id) {
      DoneStays(d, Next(d, ev), id);
    } else if ev.cut.Some? {
      CoverLater(LiveRow(d, id), until, clock, ev.env.now);
    } else if IsLive(Next(d, ev), id) {
      RowAfter(d, ev, id);
      var reply, e, f := PlanOf(d, ev.call, ev.env).reply, LiveRow(d, id), LiveRow(Next(d, ev), id);
      if f == e {
        CoverLater(e, until, clock, ev.env.now);
      } else {
        if ev.call.Ticket? {
          TicketEntry(ev.call.fence, ev.call.op, ev.env, reply, e, f);
        }
        CoverChange(ev.call, ev.env, reply, e, f, until, clock);
      }
    }
  }

  lemma CoverLater(e: Entry, until: Instant, clock: Instant, now: Instant)
    requires Covers(e, until, clock) && clock <= now
    ensures Covers(e, until, now)
  {
  }

  lemma {:induction false} CoverLasts(d: Disk, run: seq<Event>, id: string, until: Instant, clock: Instant)
    requires Inv(d) && IsRun(d, run) && Covered(d, id, until, clock)
    requires Clocked(clock, run) && NeverPutBack(d, run, id)
    ensures Covered(After(d, run), id, until, Latest(clock, run))
    decreases |run|
  {
    hide Inv, Next, Covered, PutsBack;
    if run != [] {
      CoverStep(d, run[0], id, until, clock);
      EventKeeps(d, run[0]);
      CoverLasts(Next(d, run[0]), run[1..], id, until, run[0].env.now);
      assert Latest(run[0].env.now, run[1..]) == Latest(clock, run);
    }
  }

  /**
   * Ownership in time: on a clock that does not run backwards, a ticket handed to a new holder starts after the
   * expiry of every earlier ticket of the entry, unless a holder put the entry back in between.
   */
  lemma OwnersDisjoint(d: Disk, first: Event, mid: seq<Event>, second: Event, f: Fence, g: Fence)
    requires Inv(d) && Possible(d, first) && IsRun(Next(d, first), mid)
    requires Possible(After(Next(d, first), mid), second)
    requires (Issues(d, first, f) || Renews(d, first, f)) && Issues(After(Next(d, first), mid), second, g)
    requires f.lease.Some? && g.lease.Some? && EntryOf(f) == EntryOf(g)
    requires Clocked(first.env.now, mid) && Latest(first.env.now, mid) <= second.env.now
    requires NeverPutBack(Next(d, first), mid, EntryOf(f))
    ensures f.lease.value.expiresAt <= second.env.now
  {
    hide Inv, Next, Issues, Renews, Advances, SameRepository;
    EventKeeps(d, first);
    TicketIsHeld(d, first, f);
    TicketIsRow(d, first, f);
    CoverLasts(Next(d, first), mid, EntryOf(f), f.lease.value.expiresAt, first.env.now);
    RunAdvances(Next(d, first), mid);
    IssueRaises(After(Next(d, first), mid), second, g);
    IssueKinds(After(Next(d, first), mid), second, g);
  }

  lemma IssueKinds(d: Disk, ev: Event, f: Fence)
    requires Supplied(ev.call, ev.env) && Issues(d, ev, f)
    ensures ev.call.LeaseV2? || ev.call.Ticket?
  {
  }

  /** A replied ticket is read off the row it belongs to. */
  lemma TicketIsRow(d: Disk, ev: Event, f: Fence)
    requires Inv(d) && Possible(d, ev) && (Issues(d, ev, f) || Renews(d, ev, f))
    ensures f.lease.Some? && IsLive(Next(d, ev), EntryOf(f))
    ensures ExecutionFence(LiveRow(Next(d, ev), EntryOf(f))) == Some(f)
  {
    hide Inv, FullScan;
    if Issues(d, ev, f) {
      IssueRaises(d, ev, f);
    } else {
      EventKeeps(d, ev);
      UniqueLive(Next(d, ev));
      var i := Position(d.live.entries, ev.call.fence.lease.value.entryId).value;
      LiveIs(Next(d, ev), Next(d, ev).live.entries[i]);
    }
  }

  /** The same ticket, valid until `expires`. */
  function RenewedFence(f: Fence, expires: Instant): Fence
    requires f.lease.Some?
  {
    f.(lease := Some(f.lease.value.(expiresAt := expires)))
  }

  /**
   * The holder's renewal: applied exactly while the stored expiry lies ahead; it moves the expiry to the requested
   * one, never backwards, and changes nothing else of the ticket.
   */
  lemma HolderRenews(d: Disk, f: Fence, ttl: Option<nat>, env: Env)
    requires Inv(d) && RunsUnder(d, f) && ttl != Some(0)
    ensures ExecutionFence(LiveRow(d, EntryOf(f))).Some?
    ensures var now := ExecutionFence(LiveRow(d, EntryOf(f))).value;
            var asked := env.now + RequestedTtl(ttl, env.ttlLimit) * SECOND;
            var reply := PlanOf(d, Ticket(f, Renew(ttl)), env).reply;
            && now.lease.Some?
            && var stored := now.lease.value.expiresAt;
               reply == if stored <= env.now then Mutation(StaleFence, None)
                        else Mutation(Applied, Some(RenewedFence(now, if stored < asked then asked else stored)))
  {
    hide Inv, SameRepository;
    LiveOk(d, EntryOf(f));
  }

  /** Another owner's takeover: applied exactly once the stored expiry is not ahead; it raises the generation by one. */
  lemma OtherTakesOver(d: Disk, f: Fence, newOwner: string, ttl: Option<nat>, env: Env)
    requires Inv(d) && RunsUnder(d, f) && ttl != Some(0)
    requires Trim(newOwner) != "" && Trim(newOwner) != f.lease.value.owner
    ensures ExecutionFence(LiveRow(d, EntryOf(f))).Some?
    ensures var now := ExecutionFence(LiveRow(d, EntryOf(f))).value;
            var asked := env.now + RequestedTtl(ttl, env.ttlLimit) * SECOND;
            var reply := PlanOf(d, Ticket(f, Recover(newOwner, ttl)), env).reply;
            && now.lease.Some?
            && var taken := LeaseFence(EntryOf(f), Trim(newOwner), now.lease.value.generation + 1, asked);
               reply == if env.now < now.lease.value.expiresAt then Mutation(LeaseStillLive, Some(now))
                        else Mutation(Applied, Some(now.(lease := Some(taken))))
  {
    hide Inv, SameRepository;
    LiveOk(d, EntryOf(f));
  }

  /** A requested ticket length is cut to the configured one, and stays positive. */
  lemma TtlInRange(ttl: Option<nat>, limit: int)
    requires 1 <= limit && ttl != Some(0)
    ensures 1 <= RequestedTtl(ttl, limit) <= limit
    ensures ttl.Some? && ttl.value <= limit ==> RequestedTtl(ttl, limit) == ttl.value
    ensures ttl.None? || limit < ttl.value ==> RequestedTtl(ttl, limit) == limit
  {
  }

  /** No stored expiry is further ahead of the clock than the longest ticket. */
  ghost predicate ExpiriesBounded(d: Disk, clock: Instant) {
    forall e :: e in d.live.entries && e.expiresAt.Some? ==> e.expiresAt.value <= clock + MAX_LEASE_TTL_SECS * SECOND
  }

  lemma ExpiryStep(d: Disk, ev: Event, clock: Instant)
    requires Inv(d) && Possible(d, ev) && ExpiriesBounded(d, clock) && clock <= ev.env.now
    ensures ExpiriesBounded(Next(d, ev), ev.env.now)
  {
    hide Inv, Perform, SameRepository, Recall;
    if ev.cut.None? {
      EventMoves(d, ev);
      UniqueLive(d);
      var plan := PlanOf(d, ev.call, ev.env);
      forall f | f in plan.queue.entries && f.expiresAt.Some?
        ensures f.expiresAt.value <= ev.env.now + MAX_LEASE_TTL_SECS * SECOND
      {
        if f.id in Ids(d.live.entries) {
          var e :| e in d.live.entries && e.id == f.id;
          ExpiryChange(ev, plan.reply, e, f);
        } else {
          NewRowUnleased(ev, plan.reply, f);
        }
      }
    }
  }

  lemma NewRowUnleased(ev: Event, reply: Reply, f: Entry)
    ensures MayAppear(ev.call, ev.env, reply, f) ==> f.expiresAt.None?
  {
  }

  lemma ExpiryChange(ev: Event, reply: Reply, e: Entry, f: Entry)
    requires RowChange(ev.call, ev.env, reply, e, f) && 1 <= ev.env.ttlLimit <= MAX_LEASE_TTL_SECS
    ensures || f.expiresAt == e.expiresAt || f.expiresAt.None?
            || f.expiresAt.value <= ev.env.now + MAX_LEASE_TTL_SECS * SECOND
  {
    hide SameRepository;
  }

  lemma {:induction false} ExpiriesStayBounded(d: Disk, run: seq<Event>, clock: Instant)
    requires Inv(d) && IsRun(d, run) && Clocked(clock, run) && ExpiriesBounded(d, clock)
    ensures ExpiriesBounded(After(d, run), Latest(clock, run))
    decreases |run|
  {
    hide Inv, Next, ExpiriesBounded;
    if run != [] {
      ExpiryStep(d, run[0], clock);
      EventKeeps(d, run[0]);
      ExpiriesStayBounded(Next(d, run[0]), run[1..], run[0].env.now);
      assert Latest(run[0].env.now, run[1..]) == Latest(clock, run);
    }
  }
}
