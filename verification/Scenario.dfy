/** A run in which a ticket changes hands: what the theorems about runs assume does happen. */
module Scenario {
  import opened Wrappers
  import opened Text
  import opened QueueState
  import opened QueueHistory
  import opened QueueService
  import opened FencedQueue
  import opened Machine
  import opened Effects
  import opened Invariant
  import opened Runs
  import opened HandOuts
  import opened Copies
  import opened Fencing
  import opened Finishing
  import opened Ownership
  import opened Subjects

  const WORK: Dispatch := Dispatch(Some("task:T"), Some("T"), None, Some("T"), "coding")

  function Waiting(id: string): Entry {
    FromDispatch(id, WORK, None, None)
  }

  function Start(): Disk {
    Disk(Queue([Waiting("1"), Waiting("2")], map[]), [])
  }

  const REQUEST: LeaseRequest := LeaseRequest(2, "A", ["v", "w"], [])

  function At(now: Instant, entryId: string := "3"): Env {
    Env(now, 60, entryId, [])
  }

  lemma StartIsFine()
    ensures Inv(Start())
  {
    OldFileIsFine(Start().live.entries);
  }

  lemma Untrimmed(s: string)
    requires |s| == 1 && !IsWhitespace(s[0])
    ensures Trim(s) == s
  {
  }

  lemma RequestIsValid()
    ensures ValidLease(REQUEST)
  {
    Untrimmed("A");
    Untrimmed("v");
    Untrimmed("w");
  }

  /** The first hand-out of a file with two old-style copies gives a ticket. */
  lemma FirstTicket() returns (f: Fence)
    ensures Inv(Start()) && Possible(Start(), Event(LeaseV2(REQUEST), At(0), None))
    ensures Issues(Start(), Event(LeaseV2(REQUEST), At(0), None), f)
  {
    hide Inv, PlanLeaseV2, ValidLease, Expired, LookedAt, Decided, RowsAfter;
    StartIsFine();
    RequestIsValid();
    var d, a, b := Start(), Waiting("1"), Waiting("2");
    NeverExpires(a);
    NeverExpires(b);
    BothKept(a, b, 0);
    HeadIsDecided(d, REQUEST, At(0));
    CopyIsGiven(d, REQUEST, At(0), 0);
    f := ExecutionFence(RowsAfter(d, REQUEST, At(0))[LookedAt(d, REQUEST, At(0))[0]]).value;
    var g := Grant(RowsAfter(d, REQUEST, At(0))[LookedAt(d, REQUEST, At(0))[0]], f);
    assert g in PlanLeaseV2(d.live, REQUEST, At(0)).reply.leased && g.fence == f;
  }

  lemma BothKept(a: Entry, b: Entry, now: Instant)
    requires !Expired(a, now) && !Expired(b, now)
    ensures Kept([a, b], now) == [a, b]
  {
    NothingToSweep(now);
    LastRow([a], now);
    LastRow([a, b], now);
    assert [a][..0] == [] && [a, b][..1] == [a];
  }

  lemma NeverExpires(e: Entry)
    requires e.runAt.None?
    ensures forall now :: !Expired(e, now)
  {
  }

  /** Another owner takes the ticket over once it has expired; from then on the first one is refused. */
  lemma TicketChangesHands() returns (d: Disk, first: Event, second: Event, f: Fence, g: Fence)
    ensures Inv(d) && Possible(d, first) && Issues(d, first, f)
    ensures Possible(Next(d, first), second) && Issues(Next(d, first), second, g)
    ensures f.lease.Some? && g.lease.Some? && EntryOf(f) == EntryOf(g)
    ensures g.lease.value.owner == "B" && f.lease.value.generation + 1 == g.lease.value.generation
    ensures first.env.now <= second.env.now
    ensures var after := Next(Next(d, first), second);
            Refused(after, PlanOf(after, Ticket(f, Complete("completed")), At(100 * SECOND)))
  {
    hide Inv, Next, Issues, Possible, Perform;
    d, first := Start(), Event(LeaseV2(REQUEST), At(0), None);
    f := FirstTicket();
    var mid := Next(d, first);
    TicketIsHeld(d, first, f);
    IssueRaises(d, first, f);
    EventKeeps(d, first);
    Untrimmed("B");
    Untrimmed("A");
    OwnerOfFirst(f);
    var now: Instant := if f.lease.value.expiresAt < 0 then 0 else f.lease.value.expiresAt;
    second := Event(Ticket(f, Recover("B", None)), At(now, "4"), None);
    OtherTakesOver(mid, f, "B", None, At(now, "4"));
    g := f.(lease := Some(LeaseFence(EntryOf(f), "B", f.lease.value.generation + 1, now + 60 * SECOND)));
    SecondIsPossible(second);
    SecondIssues(mid, second, g);
    IssueRaises(mid, second, g);
    EventKeeps(mid, second);
    RowIsNewer(Next(mid, second), f, g);
    MismatchRefused(Next(mid, second), f, Complete("completed"), At(100 * SECOND));
  }

  lemma OwnerOfFirst(f: Fence)
    requires Issues(Start(), Event(LeaseV2(REQUEST), At(0), None), f)
    ensures f.lease.Some? && f.lease.value.owner == "A"
  {
    hide Inv, PlanLeaseV2;
    StartIsFine();
    var g :| g in PlanLeaseV2(Start().live, REQUEST, At(0)).reply.leased && g.fence == f;
    var e := GrantIsRow(Start(), REQUEST, At(0), g);
    Untrimmed("A");
  }

  lemma SecondIsPossible(second: Event)
    requires second.call.Ticket? && second.env.entryId == "4" && second.env.ttlLimit == 60
    ensures Possible(Next(Start(), Event(LeaseV2(REQUEST), At(0), None)), second)
  {
    hide Inv, Perform, RowsMove, Recall;
    var d, first := Start(), Event(LeaseV2(REQUEST), At(0), None);
    StartIsFine();
    EventMoves(d, first);
    IdsFlow(d.live, first.call, first.env, PlanOf(d, first.call, first.env));
    assert d.log + PlanOf(d, first.call, first.env).finished == PlanOf(d, first.call, first.env).finished;
  }

  /** A call puts no other id than its own into the files. */
  lemma IdsFlow(q: Queue, call: Call, env: Env, plan: Plan)
    requires RowsMove(q, call, env, plan)
    ensures Ids(plan.queue.entries) <= Ids(q.entries) + {env.entryId} && LogIds(plan.finished) <= Ids(q.entries)
  {
    hide MayFinish, RowChange, MayAppear;
    forall r | r in plan.finished
      ensures r.entry.id in Ids(q.entries)
    {
      var x :| x in q.entries && MayFinish(call, env, plan.reply, x, r);
      FinishKeepsId(call, env, plan.reply, x, r);
    }
  }

  lemma SecondIssues(d: Disk, ev: Event, f: Fence)
    requires ev.cut.None? && ev.call.Ticket? && ev.call.op.Recover? && Supplied(ev.call, ev.env)
    requires PlanOf(d, ev.call, ev.env).reply == Mutation(Applied, Some(f))
    ensures Issues(d, ev, f)
  {
  }

  lemma RowIsNewer(d: Disk, f: Fence, g: Fence)
    requires f.lease.Some? && g.lease.Some? && EntryOf(f) == EntryOf(g) && IsLive(d, EntryOf(g))
    requires LiveRow(d, EntryOf(g)).leaseGen == g.lease.value.generation > f.lease.value.generation
    ensures Version(d, EntryOf(f)).Some? && !ExactFenceMatches(Version(d, EntryOf(f)).value, f)
  {
  }
}
