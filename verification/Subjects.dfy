/** Subjects and branches over whole runs: one running row per branch, no number twice, one live row per subject. */
module Subjects {
  import opened Wrappers
  import opened QueueState
  import opened QueueHistory
  import opened QueueService
  import opened FencedQueue
  import opened Machine
  import opened Effects
  import opened Invariant
  import opened Runs
  import opened Fencing
  import opened Copies
  import opened Reordering
  import opened Idempotency

  // ---------------------------------------------------------------------
  // The start
  // ---------------------------------------------------------------------

  /** The row an old-style queue file holds. */
  predicate OldStyleRow(e: Entry) {
    && e == BlankEntry(e.id).(subject := e.subject, taskId := e.taskId, dispatch := e.dispatch, status := e.status,
                              workflowId := e.workflowId, assignedAt := e.assignedAt, heldAt := e.heldAt,
                              runAt := e.runAt, expireAfter := e.expireAfter,
                              owner := e.owner, expiresAt := e.expiresAt)
    && (e.dispatch.Some? ==> e.dispatch.value.canonicalId != Some(""))
  }

  /** A queue file from before tickets, and no history: the invariant holds there. */
  lemma OldFileIsFine(entries: seq<Entry>)
    requires UniqueIds(entries)
    requires forall e :: e in entries ==> OldStyleRow(e)
    ensures Inv(Disk(Queue(entries, map[]), []))
  {
  }

  // ---------------------------------------------------------------------
  // Branches
  // ---------------------------------------------------------------------

  /** No branch is ever running twice, whatever mix of calls and interrupted commits led here. */
  lemma BranchRunsOnce(d: Disk, run: seq<Event>, i: nat, j: nat)
    requires Inv(d) && IsRun(d, run)
    requires i < j < |After(d, run).live.entries|
    ensures var e, f := After(d, run).live.entries[i], After(d, run).live.entries[j];
            (e.status == Assigned && f.status == Assigned && e.repository.Some? && f.repository.Some?)
            ==> e.repository.value.collisionKey != f.repository.value.collisionKey
  {
    RunKeeps(d, run);
    RowsApart(After(d, run), i, j);
  }

  lemma RowsApart(d: Disk, i: nat, j: nat)
    requires Inv(d) && i < |d.live.entries| && j < |d.live.entries| && i != j
    ensures !Clash(d.live.entries[i], d.live.entries[j]) && Separate(d.live.entries[i], d.live.entries[j])
  {
    hide RowOk, Coherent, Separate, Clash;
    if j < i {
      assert d.live.entries[j].id != d.live.entries[i].id;
    }
  }

  // ---------------------------------------------------------------------
  // Subject generations
  // ---------------------------------------------------------------------

  /** Entry `id`, live or finished, has the number `subject`. */
  ghost predicate HasNumber(d: Disk, id: string, subject: SubjectGeneration) {
    && Version(d, id).Some?
    && Version(d, id).value.subject == Some(subject.qualifiedId)
    && Version(d, id).value.subjectGen == Some(subject.generation)
  }

  /** A subject's counter is above every generation held by a live or finished row of the subject. */
  lemma CounterDominates(d: Disk, run: seq<Event>, id: string, subject: SubjectGeneration)
    requires Inv(d) && IsRun(d, run) && HasNumber(After(d, run), id, subject)
    ensures var counters := After(d, run).live.counters;
            subject.qualifiedId in counters && 0 < subject.generation <= counters[subject.qualifiedId]
  {
    hide Inv;
    RunKeeps(d, run);
    VersionOk(After(d, run), id);
  }

  /** Counters never go back, not even in an interrupted commit or when the queue runs empty. */
  lemma CountersNeverDrop(d: Disk, run: seq<Event>, subject: string)
    requires Inv(d) && IsRun(d, run) && subject in d.live.counters
    ensures subject in After(d, run).live.counters && d.live.counters[subject] <= After(d, run).live.counters[subject]
  {
    hide Inv;
    RunAdvances(d, run);
  }

  /** One state: a number belongs to one entry. */
  lemma NumberIsOneEntry(d: Disk, a: string, b: string, subject: SubjectGeneration)
    requires Inv(d) && HasNumber(d, a, subject) && HasNumber(d, b, subject)
    ensures a == b
  {
    hide Inv, Separate, Version;
    if a != b {
      if IsLive(d, a) && IsLive(d, b) {
        LivesApart(d, a, b);
      } else if IsLive(d, a) {
        LiveAndDoneApart(d, a, b);
      } else if IsLive(d, b) {
        LiveAndDoneApart(d, b, a);
      } else {
        DonesApart(d, a, b);
      }
    }
  }

  ghost predicate SharesNumber(d: Disk, a: string, b: string) {
    && Version(d, a).Some? && Version(d, b).Some?
    && SameNumber(Version(d, a).value, Version(d, b).value)
  }

  lemma LivesApart(d: Disk, a: string, b: string)
    requires Inv(d) && IsLive(d, a) && IsLive(d, b) && a != b
    ensures !SharesNumber(d, a, b)
  {
    hide Coherent, RowOk, Clash;
    assert Separate(LiveRow(d, a), LiveRow(d, b));
  }

  lemma LiveAndDoneApart(d: Disk, a: string, b: string)
    requires Inv(d) && IsLive(d, a) && !IsLive(d, b)
    ensures !SharesNumber(d, a, b)
  {
    hide RowOk, Clash, Grows;
    LastForEntryIs(d.log, b);
    if IsDone(d, b) {
      assert Coherent(DoneRecord(d, b).entry, LiveRow(d, a));
    }
  }

  lemma DonesApart(d: Disk, a: string, b: string)
    requires Inv(d) && !IsLive(d, a) && !IsLive(d, b) && a != b
    ensures !SharesNumber(d, a, b)
  {
    hide Inv, SameNumber;
    if IsDone(d, a) && IsDone(d, b) {
      LastForEntryIs(d.log, a);
      LastForEntryIs(d.log, b);
      var x, y := DoneRecord(d, a), DoneRecord(d, b);
      assert x.entry.id == a && y.entry.id == b;
      var i :| 0 <= i < |d.log| && d.log[i] == x;
      var j :| 0 <= j < |d.log| && d.log[j] == y;
      RecordsApart(d, i, j);
    }
  }

  lemma RecordsApart(d: Disk, i: nat, j: nat)
    requires Inv(d) && i < |d.log| && j < |d.log| && d.log[i].entry.id != d.log[j].entry.id
    ensures !SameNumber(d.log[i].entry, d.log[j].entry)
  {
    hide RowOk, Clash, Grows;
    var first, second := if i < j then i else j, if i < j then j else i;
    assert Coherent(d.log[first].entry, d.log[second].entry);
  }

  lemma NumberStays(d: Disk, after: Disk, id: string, subject: SubjectGeneration)
    requires Advances(d, after) && HasNumber(d, id, subject)
    ensures HasNumber(after, id, subject)
  {
    VersionAdvances(d, after, id);
  }

  /** Over a whole run, a subject generation is given to one entry only. */
  lemma SubjectNumbersNeverReused(d: Disk, run: seq<Event>, a: string, b: string, subject: SubjectGeneration)
    requires Inv(d) && IsRun(d, run)
    requires HasNumber(d, a, subject) && HasNumber(After(d, run), b, subject)
    ensures a == b
  {
    hide Inv, Advances, HasNumber;
    RunAdvances(d, run);
    NumberStays(d, After(d, run), a, subject);
    NumberIsOneEntry(After(d, run), a, b, subject);
  }

  /** Every receipt tells the number its entry has. */
  lemma ReceiptHasNumber(d: Disk, ev: Event)
    requires Inv(d) && Possible(d, ev) && Received(d, ev)
    ensures HasNumber(Next(d, ev), PlanOf(d, ev.call, ev.env).reply.entryId, PlanOf(d, ev.call, ev.env).reply.subject)
  {
    hide Inv, Next, PlanNewAdd, HolderOf, Version, Advances, Recall, CurrentHolder;
    var add := ev.call.add;
    if HolderOf(d, add, ev.env).Some? {
      HolderIsVersion(d, add, ev.env);
      EventAdvances(d, ev);
      var reply := PlanOf(d, ev.call, ev.env).reply;
      HeldReceipt(d, add, ev.env);
      NumberStays(d, Next(d, ev), reply.entryId, reply.subject);
    } else {
      NewReceipt(d, ev);
    }
  }

  /** `ev` ran to its end and was given a receipt. */
  ghost predicate Received(d: Disk, ev: Event)
    requires Supplied(ev.call, ev.env)
  {
    ev.cut.None? && ev.call.EnqueueV2? && PlanOf(d, ev.call, ev.env).reply.Receipt?
  }

  lemma HeldReceipt(d: Disk, add: AddRequest, env: Env)
    requires HolderOf(d, add, env).Some? && PlanOf(d, EnqueueV2(add), env).reply.Receipt?
    requires Version(d, HolderOf(d, add, env).value.id) == Some(Snapshot(HolderOf(d, add, env).value))
    ensures HasNumber(d, PlanOf(d, EnqueueV2(add), env).reply.entryId, PlanOf(d, EnqueueV2(add), env).reply.subject)
  {
    hide Version, CurrentHolder, Recall, PlanNewAdd;
  }

  lemma NewReceipt(d: Disk, ev: Event)
    requires Inv(d) && Possible(d, ev) && Received(d, ev) && HolderOf(d, ev.call.add, ev.env).None?
    ensures HasNumber(Next(d, ev), PlanOf(d, ev.call, ev.env).reply.entryId, PlanOf(d, ev.call, ev.env).reply.subject)
  {
    hide Inv, CurrentHolder, Recall, NextGeneration, HighestTicketed, FirstWaiting, SweepFinished, LastForKey;
    EventKeeps(d, ev);
    UniqueLive(Next(d, ev));
    var plan := PlanOf(d, ev.call, ev.env);
    var swept := SweepQueue(d.live, ev.env.now);
    var live := LiveEntryForSubject(swept.entries, ev.call.add.dispatch.canonicalId.value);
    var i := if live.Some? then live.value else |swept.entries|;
    LiveIs(Next(d, ev), plan.queue.entries[i]);
  }

  /** Two receipts of one run that tell the same number are for the same entry. */
  lemma ReceiptsAgree(d: Disk, first: Event, mid: seq<Event>, second: Event)
    requires Inv(d) && Possible(d, first) && Received(d, first)
    requires IsRun(Next(d, first), mid)
    requires var after := After(Next(d, first), mid); Possible(after, second) && Received(after, second)
    requires var after := After(Next(d, first), mid);
             PlanOf(d, first.call, first.env).reply.subject == PlanOf(after, second.call, second.env).reply.subject
    ensures var after := After(Next(d, first), mid);
            PlanOf(d, first.call, first.env).reply.entryId == PlanOf(after, second.call, second.env).reply.entryId
  {
    hide Inv, Next, PlanOf, Advances, HasNumber;
    var after := After(Next(d, first), mid);
    EventKeeps(d, first);
    RunAdvances(Next(d, first), mid);
    ReceiptHasNumber(d, first);
    ReceiptHasNumber(after, second);
    EventAdvances(after, second);
    EventKeeps(after, second);
    var a, b := PlanOf(d, first.call, first.env).reply, PlanOf(after, second.call, second.env).reply;
    NumberStays(Next(d, first), after, a.entryId, a.subject);
    NumberStays(after, Next(after, second), a.entryId, a.subject);
    NumberIsOneEntry(Next(after, second), a.entryId, b.entryId, a.subject);
  }

  // ---------------------------------------------------------------------
  // One live row per subject
  // ---------------------------------------------------------------------

  /** Nothing stops a new row for `subject`: no live ticketed row, and no waiting or held old-style one. */
  ghost predicate SubjectFree(entries: seq<Entry>, subject: string) {
    forall e :: e in entries ==>
      && !(e.status != Unknown && e.subjectGen.Some? && e.subject == Some(subject))
      && !((e.status == Pending || e.status == Held) && e.subjectGen.None?
           && e.dispatch.Some? && e.dispatch.value.canonicalId == Some(subject))
  }

  /** An add makes a new row exactly when it is acceptable, its key is new, and its subject is free after the sweep. */
  lemma AddsExactlyWhenFree(d: Disk, add: AddRequest, env: Env)
    requires Inv(d)
    ensures var reply := PlanOf(d, EnqueueV2(add), env).reply;
            reply.Receipt? && reply.enqueued <==>
              && Acceptable(add)
              && HolderOf(d, add, env).None?
              && SubjectFree(Kept(d.live.entries, env.now), add.dispatch.canonicalId.value)
  {
    hide Inv, Recall, CurrentHolder, NextGeneration, HighestTicketed, FirstWaiting, Bound, NewEntry;
    if Acceptable(add) {
      FreeIs(Kept(d.live.entries, env.now), add.dispatch.canonicalId.value);
    }
  }

  lemma FreeIs(entries: seq<Entry>, subject: string)
    ensures SubjectFree(entries, subject) <==> LiveEntryForSubject(entries, subject).None?
  {
    if SubjectFree(entries, subject) {
      assert forall i :: 0 <= i < |entries| ==> entries[i] in entries;
    }
  }

  /** Every row is ticketed and known, and no two share a subject. */
  ghost predicate OnePerSubject(entries: seq<Entry>) {
    && (forall e :: e in entries ==> Ticketed(e) && e.status != Unknown)
    && (forall e, f :: e in entries && f in entries && e.id != f.id ==> e.subject != f.subject)
  }

  lemma ChangeKeepsSubject(call: Call, env: Env, reply: Reply, e: Entry, f: Entry)
    requires RowChange(call, env, reply, e, f) && Ticketed(e) && e.status != Unknown
    ensures f.id == e.id && f.subject == e.subject && Ticketed(f) && f.status != Unknown
  {
  }

  lemma AppearsFree(d: Disk, ev: Event, f: Entry)
    requires Inv(d) && Possible(d, ev) && !ev.call.Enqueue?
    requires MayAppear(ev.call, ev.env, PlanOf(d, ev.call, ev.env).reply, f)
    ensures Ticketed(f) && f.status != Unknown
    ensures f.subject.Some? && SubjectFree(Kept(d.live.entries, ev.env.now), f.subject.value)
  {
    hide Inv, PlanEnqueueV2, Recall, HolderOf, SubjectFree;
    AddsExactlyWhenFree(d, ev.call.add, ev.env);
  }

  lemma EventKeepsOnePerSubject(d: Disk, ev: Event)
    requires Inv(d) && Possible(d, ev) && !ev.call.Enqueue?
    requires OnePerSubject(d.live.entries)
    ensures OnePerSubject(Next(d, ev).live.entries)
  {
    hide Inv, Perform, Flows, RowChange, MayAppear, Kept;
    if ev.cut.None? {
      EventMoves(d, ev);
      var plan := PlanOf(d, ev.call, ev.env);
      var after := plan.queue.entries;
      forall f | f in after
        ensures Ticketed(f) && f.status != Unknown
      {
        Origin(d, ev, f);
      }
      forall f, g | f in after && g in after && f.id != g.id
        ensures f.subject != g.subject
      {
        Origin(d, ev, f);
        Origin(d, ev, g);
        OriginsDiffer(d, ev, f, g);
      }
    }
  }

  /** Where a row of the next queue comes from. */
  lemma Origin(d: Disk, ev: Event, f: Entry)
    requires Inv(d) && Possible(d, ev) && !ev.call.Enqueue? && ev.cut.None?
    requires OnePerSubject(d.live.entries)
    requires f in Next(d, ev).live.entries
    ensures Ticketed(f) && f.status != Unknown && f.subject.Some?
    ensures f.id in Ids(d.live.entries) || f.id == ev.env.entryId
    ensures f.id in Ids(d.live.entries) ==> exists e :: e in d.live.entries && e.id == f.id && e.subject == f.subject
    ensures f.id !in Ids(d.live.entries) ==> SubjectFree(Kept(d.live.entries, ev.env.now), f.subject.value)
  {
    hide Inv, Perform, Flows, RowChange, MayAppear, Kept, SubjectFree;
    EventMoves(d, ev);
    var plan := PlanOf(d, ev.call, ev.env);
    if f.id in Ids(d.live.entries) {
      var e :| e in d.live.entries && e.id == f.id;
      ChangeKeepsSubject(ev.call, ev.env, plan.reply, e, f);
      HasSubject(d, e);
    } else {
      AppearsFree(d, ev, f);
      AppearsFresh(ev, plan, f);
    }
  }

  lemma HasSubject(d: Disk, e: Entry)
    requires Inv(d) && e in d.live.entries && Ticketed(e)
    ensures e.subject.Some?
  {
  }

  lemma OriginsDiffer(d: Disk, ev: Event, f: Entry, g: Entry)
    requires Inv(d) && Possible(d, ev) && !ev.call.Enqueue? && ev.cut.None?
    requires OnePerSubject(d.live.entries)
    requires f in Next(d, ev).live.entries && g in Next(d, ev).live.entries && f.id != g.id
    ensures f.subject != g.subject
  {
    hide Inv, Perform, Kept, SubjectFree, Next;
    Origin(d, ev, f);
    Origin(d, ev, g);
    if f.id !in Ids(d.live.entries) {
      StaysTaken(d, ev, f, g);
    } else if g.id !in Ids(d.live.entries) {
      StaysTaken(d, ev, g, f);
    }
  }

  /** A row that stays beside the new row `f` was not swept, so its subject is not free. */
  lemma StaysTaken(d: Disk, ev: Event, f: Entry, g: Entry)
    requires Inv(d) && Possible(d, ev) && ev.cut.None? && !ev.call.Enqueue? && OnePerSubject(d.live.entries)
    requires f in Next(d, ev).live.entries && f.id !in Ids(d.live.entries)
    requires g in Next(d, ev).live.entries && g.id in Ids(d.live.entries)
    requires f.subject.Some? && SubjectFree(Kept(d.live.entries, ev.env.now), f.subject.value)
    ensures f.subject != g.subject
  {
    hide Inv, Perform, Recall, RowChange, Flows, Kept;
    EventMoves(d, ev);
    NewRowStands(d, ev);
    HasSubject(d, g);
  }

  lemma NewRowStands(d: Disk, ev: Event)
    requires Supplied(ev.call, ev.env) && ev.cut.None? && ev.call.EnqueueV2?
    requires var reply := PlanOf(d, ev.call, ev.env).reply; reply.Receipt? && reply.enqueued
    ensures forall g :: g in Next(d, ev).live.entries ==>
              g.id == ev.env.entryId || g in Kept(d.live.entries, ev.env.now)
  {
    hide Recall, Holder, NextGeneration, LiveEntryForSubject;
  }

  /** The calls of a run without old-style adds. */
  ghost predicate TicketedAddsOnly(run: seq<Event>) {
    forall ev :: ev in run ==> !ev.call.Enqueue?
  }

  /** Where every row came from a ticketed add, no subject ever has two live rows. */
  lemma {:induction false} OneLiveRowPerSubject(d: Disk, run: seq<Event>)
    requires Inv(d) && IsRun(d, run) && TicketedAddsOnly(run)
    requires OnePerSubject(d.live.entries)
    ensures OnePerSubject(After(d, run).live.entries)
    decreases |run|
  {
    hide Inv, Next, OnePerSubject;
    if run != [] {
      EventKeeps(d, run[0]);
      EventKeepsOnePerSubject(d, run[0]);
      OneLiveRowPerSubject(Next(d, run[0]), run[1..]);
    }
  }

  // ---------------------------------------------------------------------
  // Copies
  // ---------------------------------------------------------------------

  /** Waiting, due, within its window, and named after its dispatch when it is handed out. */
  predicate Copy(e: Entry, subject: string, now: Instant) {
    Nameable(e) && e.dispatch.value.canonicalId == Some(subject) && Due(e, now) && !Expired(e, now)
  }

  /** Row `id` runs under a ticket for `subject`. */
  predicate RunsFor(d: Disk, id: string, subject: string) {
    && IsLive(d, id)
    && LiveRow(d, id).status == Assigned && Ticketed(LiveRow(d, id)) && LiveRow(d, id).subject == Some(subject)
  }

  /**
   * The other way round: wherever two old-style copies of a subject wait, anywhere in any queue in good order, a
   * reorder and one hand-out make both run.
   */
  lemma CopiesCanRun(d: Disk, a: Entry, b: Entry, subject: string, req: LeaseRequest, first: Env, second: Env)
    requires Inv(d) && a in d.live.entries && b in d.live.entries && a.id != b.id
    requires Copy(a, subject, second.now) && Copy(b, subject, second.now)
    requires ValidLease(req) && req.max >= 2
    requires forall x :: x in req.exclude && x.subject.Some? ==> x.subject.value.qualifiedId != subject
    requires Possible(d, Event(Reorder([a.id, b.id]), first, None)) && Possible(d, Event(LeaseV2(req), second, None))
    ensures var run := [Event(Reorder([a.id, b.id]), first, None), Event(LeaseV2(req), second, None)];
            && IsRun(d, run)
            && RunsFor(After(d, run), a.id, subject) && RunsFor(After(d, run), b.id, subject)
  {
    hide Inv, ValidLease, Next, Possible, Copy, RunsFor;
    var reorder, lease := Event(Reorder([a.id, b.id]), first, None), Event(LeaseV2(req), second, None);
    var mid := Next(d, reorder);
    EventKeeps(d, reorder);
    ReorderLeads(d, reorder, lease, a, b);
    HeadRuns(mid, req, second, a, b, subject);
    var run := [reorder, lease];
    assert run[1..] == [lease] && run[1..][1..] == [];
    assert IsRun(Next(mid, lease), []) && After(Next(mid, lease), []) == Next(mid, lease);
    assert IsRun(mid, [lease]) && After(mid, [lease]) == Next(mid, lease);
  }

  /** After the reorder the two named rows lead the queue, and no id is new. */
  lemma ReorderLeads(d: Disk, reorder: Event, lease: Event, a: Entry, b: Entry)
    requires Inv(d) && a in d.live.entries && b in d.live.entries && a.id != b.id
    requires reorder.call == Reorder([a.id, b.id]) && reorder.cut.None? && lease.call.LeaseV2?
    requires Possible(d, reorder) && Possible(d, lease)
    ensures var entries := Next(d, reorder).live.entries; |entries| >= 2 && entries[0] == a && entries[1] == b
    ensures Possible(Next(d, reorder), lease)
  {
    hide Inv, PlanReorder, Wanted, ChangedPositions;
    UniqueLive(d);
    var ids := [a.id, b.id];
    ReorderIsStable(d.live, ids);
    ReorderPermutes(d.live, ids);
    WantedHead(d.live.entries, a, b);
    SameIdSet(PlanReorder(d.live, ids).queue.entries, d.live.entries);
    assert d.log + [] == d.log;
  }

  lemma WantedHead(entries: seq<Entry>, a: Entry, b: Entry)
    requires UniqueIds(entries) && a in entries && b in entries && a.id != b.id
    ensures var wanted := Wanted(entries, [a.id, b.id]); |wanted| >= 2 && wanted[0] == a && wanted[1] == b
  {
    hide Unnamed, Position, UniqueIds;
    PositionOf(entries, a);
    PositionOf(entries, b);
    var ids := [a.id, b.id];
    assert ids[1..] == [b.id] && ids[1..][1..] == [];
    assert Named(entries, ids[1..], {a.id}) == [b] + Named(entries, [], {a.id, b.id});
    assert Named(entries, ids, {}) == [a] + Named(entries, ids[1..], {} + {a.id});
    assert {} + {a.id} == {a.id};
  }

  lemma SameIdSet(a: seq<Entry>, b: seq<Entry>)
    requires multiset(a) == multiset(b)
    ensures Ids(a) == Ids(b)
  {
    assert forall e :: e in a <==> e in multiset(a);
    assert forall e :: e in b <==> e in multiset(b);
  }

  lemma HeadRuns(d: Disk, req: LeaseRequest, env: Env, a: Entry, b: Entry, subject: string)
    requires Inv(d) && ValidLease(req) && req.max >= 2 && Possible(d, Event(LeaseV2(req), env, None))
    requires |d.live.entries| >= 2 && d.live.entries[0] == a && d.live.entries[1] == b
    requires Copy(a, subject, env.now) && Copy(b, subject, env.now)
    requires forall x :: x in req.exclude && x.subject.Some? ==> x.subject.value.qualifiedId != subject
    ensures var after := Next(d, Event(LeaseV2(req), env, None));
            RunsFor(after, a.id, subject) && RunsFor(after, b.id, subject)
  {
    hide Inv, ValidLease, LookedAt, Decided, RowsAfter, PlanLeaseV2, Due, Expired, Kept;
    var ev := Event(LeaseV2(req), env, None);
    HeadKept(d.live.entries, env.now);
    HeadIsDecided(d, req, env);
    CopiesGetTickets(d, req, env, 0, 1);
    EventKeeps(d, ev);
    UniqueLive(Next(d, ev));
    RowKeepsId(d, req, env, 0);
    RowKeepsId(d, req, env, 1);
    LiveIs(Next(d, ev), RowsAfter(d, req, env)[0]);
    LiveIs(Next(d, ev), RowsAfter(d, req, env)[1]);
  }

  lemma {:induction false} HeadKept(entries: seq<Entry>, now: Instant)
    requires |entries| >= 2 && !Expired(entries[0], now) && !Expired(entries[1], now)
    ensures var kept := Kept(entries, now); |kept| >= 2 && kept[0] == entries[0] && kept[1] == entries[1]
    decreases |entries|
  {
    hide Expired, Kept;
    var n := |entries| - 1;
    LastRow(entries, now);
    if n >= 2 {
      HeadKept(entries[..n], now);
    } else {
      LastRow(entries[..1], now);
      NothingToSweep(now);
      assert entries[..1][..0] == [];
    }
  }
}
