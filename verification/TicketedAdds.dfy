/** Ticketed adds field by field: the row a new add makes, the row an add gets back, and the adds that are refused. */
module TicketedAdds {
  import opened Wrappers
  import opened Text
  import opened QueueState
  import opened QueueHistory
  import opened QueueService
  import opened FencedQueue
  import opened Machine
  import opened Effects
  import opened Invariant
  import opened Runs
  import opened Fencing
  import opened Idempotency
  import opened Subjects

  // ---------------------------------------------------------------------
  // Numbers
  // ---------------------------------------------------------------------

  /** The number after the last one given to the subject. */
  function NumberAfter(counters: map<string, nat>, subject: string): nat {
    (if subject in counters then counters[subject] else 0) + 1
  }

  /** In a queue in good order the recorded counter alone decides the next number. */
  lemma NextIsCounted(q: Queue, subject: string)
    requires forall e :: e in q.entries ==> RowOk(e, q.counters)
    ensures NextGeneration(q, subject) == NumberAfter(q.counters, subject)
    ensures Counted(q, subject) == Queue(q.entries, q.counters[subject := NumberAfter(q.counters, subject)])
  {
    hide ExecutionFence;
  }

  lemma SweptOk(d: Disk, now: Instant)
    requires Inv(d)
    ensures forall e :: e in Kept(d.live.entries, now) ==> RowOk(e, d.live.counters)
  {
    hide RowOk, Coherent, Separate, Clash;
  }

  // ---------------------------------------------------------------------
  // New rows
  // ---------------------------------------------------------------------

  /** `e` is a fresh waiting row for the add, field by field. */
  ghost predicate MadeFor(e: Entry, add: AddRequest, id: string, number: nat) {
    && e.id == id && e.status == Pending
    && e.subject == add.dispatch.canonicalId && e.subjectGen == Some(number)
    && e.taskId == (if add.dispatch.taskId.Some? then add.dispatch.taskId.value else "")
    && e.dispatch == Some(add.dispatch) && e.repository == add.repository
    && e.runAt == add.runAt && e.expireAfter == add.expireAfter
    && e.key == (if add.key.Some? then Some(Trim(add.key.value)) else None)
    && e.hash == Some(add.hash) && e.extraKeys == []
    && e.workflowId == None && e.workflowGen == None && e.owner == None && e.leaseGen == 0 && e.expiresAt == None
    && e.assignedAt == None && e.heldAt == None
  }

  /** An add that makes a row puts it last, as the request asks, under the subject's next number. */
  lemma NewAddIsExact(d: Disk, add: AddRequest, env: Env)
    requires Inv(d) && PlanOf(d, EnqueueV2(add), env).reply.Receipt? && PlanOf(d, EnqueueV2(add), env).reply.enqueued
    ensures add.dispatch.canonicalId.Some?
    ensures var plan := PlanOf(d, EnqueueV2(add), env);
            var subject := add.dispatch.canonicalId.value;
            var number := NumberAfter(d.live.counters, subject);
            && plan.reply == Receipt(true, env.entryId, SubjectGeneration(subject, number), false)
            && plan.finished == SweepFinished(d.live, env.now)
            && plan.queue.counters == d.live.counters[subject := number]
            && |plan.queue.entries| == |Kept(d.live.entries, env.now)| + 1
            && plan.queue.entries[..|plan.queue.entries| - 1] == Kept(d.live.entries, env.now)
            && MadeFor(plan.queue.entries[|plan.queue.entries| - 1], add, env.entryId, number)
  {
    hide Inv, Recall, Holder, LiveEntryForSubject, NextGeneration, Counted, Trim;
    SweptOk(d, env.now);
    NextIsCounted(SweepQueue(d.live, env.now), add.dispatch.canonicalId.value);
  }

  // ---------------------------------------------------------------------
  // Rows an add gets back
  // ---------------------------------------------------------------------

  /** A live ticketed row of the subject. */
  ghost predicate TicketedRow(e: Entry, subject: string) {
    e.status != Unknown && e.subjectGen.Some? && e.subject == Some(subject)
  }

  /** An old-style row of the subject that waits or is held. */
  ghost predicate WaitingRow(e: Entry, subject: string) {
    && (e.status == Pending || e.status == Held) && e.subjectGen.None?
    && e.dispatch.Some? && e.dispatch.value.canonicalId == Some(subject)
  }

  /** The row that stops an add: the ticketed one with the highest number, or else the first old-style one. */
  ghost predicate Stops(rows: seq<Entry>, i: nat, subject: string) {
    && i < |rows|
    && (if exists j :: 0 <= j < |rows| && TicketedRow(rows[j], subject) then
          && TicketedRow(rows[i], subject)
          && forall j :: 0 <= j < |rows| && TicketedRow(rows[j], subject) ==>
               rows[j].subjectGen.value <= rows[i].subjectGen.value
        else WaitingRow(rows[i], subject) && forall j :: 0 <= j < i ==> !WaitingRow(rows[j], subject))
  }

  lemma StopsIs(rows: seq<Entry>, subject: string)
    ensures LiveEntryForSubject(rows, subject).Some? ==> Stops(rows, LiveEntryForSubject(rows, subject).value, subject)
  {
    if exists j :: 0 <= j < |rows| && TicketedRow(rows[j], subject) {
      var j :| 0 <= j < |rows| && TicketedRow(rows[j], subject);
      assert IsTicketedFor(rows[j], subject);
    }
    assert forall j :: 0 <= j < |rows| ==> (TicketedRow(rows[j], subject) <==> IsTicketedFor(rows[j], subject));
    assert forall j :: 0 <= j < |rows| ==> (WaitingRow(rows[j], subject) <==> IsWaitingFor(rows[j], subject));
  }

  /** `f` is row `e` after an add got it back: named, with the add's key bound to it, else as it was. */
  ghost predicate Joined(e: Entry, f: Entry, add: AddRequest, number: nat) {
    && f.subject == add.dispatch.canonicalId
    && f.subjectGen == (if e.subjectGen.Some? then e.subjectGen else Some(number))
    && f.extraKeys == e.extraKeys + (if add.key.Some? then [Binding(Trim(add.key.value), add.hash)] else [])
    && f.id == e.id && f.status == e.status && f.taskId == e.taskId && f.dispatch == e.dispatch
    && f.workflowId == e.workflowId && f.workflowGen == e.workflowGen && f.owner == e.owner && f.leaseGen == e.leaseGen
    && f.expiresAt == e.expiresAt && f.assignedAt == e.assignedAt && f.heldAt == e.heldAt
    && f.runAt == e.runAt && f.expireAfter == e.expireAfter
    && f.repository == e.repository && f.key == e.key && f.hash == e.hash
  }

  /** An add that gets an existing row back changes that row alone, and replies its id and number. */
  lemma JoiningAddIsExact(d: Disk, add: AddRequest, env: Env) returns (i: nat)
    requires Inv(d) && HolderOf(d, add, env).None?
    requires PlanOf(d, EnqueueV2(add), env).reply.Receipt? && !PlanOf(d, EnqueueV2(add), env).reply.enqueued
    ensures add.dispatch.canonicalId.Some?
    ensures var plan := PlanOf(d, EnqueueV2(add), env);
            var kept := Kept(d.live.entries, env.now);
            var subject := add.dispatch.canonicalId.value;
            var number := NumberAfter(d.live.counters, subject);
            && Stops(kept, i, subject) && |plan.queue.entries| == |kept|
            && plan.queue.entries == kept[i := plan.queue.entries[i]]
            && Joined(kept[i], plan.queue.entries[i], add, number)
            && plan.queue.entries[i].subjectGen.Some?
            && plan.reply.Receipt?
            && plan.reply.subject == SubjectGeneration(subject, plan.queue.entries[i].subjectGen.value)
            && !plan.reply.enqueued && plan.reply.entryId == kept[i].id && plan.reply.warned
            && plan.finished == SweepFinished(d.live, env.now)
            && plan.queue.counters
               == if kept[i].subjectGen.Some? then d.live.counters else d.live.counters[subject := number]
  {
    hide Inv, Recall, Holder, LiveEntryForSubject, EnsureIdentity, Trim, Stops, RowOk, Kept, Swept, NextGeneration;
    SweptOk(d, env.now);
    var swept := SweepQueue(d.live, env.now);
    var subject := add.dispatch.canonicalId.value;
    StopsIs(swept.entries, subject);
    i := LiveEntryForSubject(swept.entries, subject).value;
    StopIndex(swept.entries, i, subject);
    NamingIs(swept, i, subject);
    StopIsNamed(swept, i, subject);
  }

  lemma StopIndex(rows: seq<Entry>, i: nat, subject: string)
    requires Stops(rows, i, subject)
    ensures i < |rows|
  {
  }

  /** Naming the row that stops an add: it keeps the number it has, or gets the subject's next one. */
  lemma NamingIs(q: Queue, i: nat, subject: string)
    requires Stops(q.entries, i, subject) && i < |q.entries|
    requires forall e :: e in q.entries ==> RowOk(e, q.counters)
    ensures var e, number := q.entries[i], NumberAfter(q.counters, subject);
            EnsureIdentity(q, i)
            == if e.subjectGen.Some? then Some(Identified(q, SubjectGeneration(subject, e.subjectGen.value)))
               else
                 var named := e.(subject := Some(subject), subjectGen := Some(number));
                 Some(Identified(Queue(q.entries[i := named], q.counters[subject := number]),
                                 SubjectGeneration(subject, number)))
  {
    hide NextGeneration, Counted, Stops, RowOk;
    NextIsCounted(q, subject);
    StopIsNamed(q, i, subject);
  }

  /** The identity of the row that stops an add is the add's subject. */
  lemma StopIsNamed(q: Queue, i: nat, subject: string)
    requires Stops(q.entries, i, subject)
    requires forall e :: e in q.entries ==> RowOk(e, q.counters)
    ensures q.entries[i].subjectGen.Some? ==> q.entries[i].subject == Some(subject)
    ensures q.entries[i].subjectGen.None? ==>
              q.entries[i].dispatch.Some? && q.entries[i].dispatch.value.canonicalId == Some(subject)
  {
    hide RowOk;
  }

  // ---------------------------------------------------------------------
  // Refused adds
  // ---------------------------------------------------------------------

  /** What is wrong with a request in itself. */
  ghost predicate Malformed(add: AddRequest) {
    || add.dispatch.canonicalId.None?
    || (add.runAt.Some? && add.runAt.value.instant.None?)
    || (add.expireAfter.Some? && add.expireAfter.value > 9_223_372_036_854_775)
    || (add.expireAfter.Some? && add.runAt.Some? && add.runAt.value.instant.Some?
        && add.runAt.value.instant.value + add.expireAfter.value * 1_000_000_000 > LAST_INSTANT)
    || (add.key.Some? && |Trim(add.key.value)| > 256)
  }

  /** An add is refused exactly if it is malformed or its key is bound to other content; then nothing changes. */
  lemma AddIsRefusedExactly(d: Disk, add: AddRequest, env: Env)
    requires Inv(d)
    ensures var plan := PlanOf(d, EnqueueV2(add), env);
            && (plan.reply == InvalidParams <==>
                  || Malformed(add)
                  || (HolderOf(d, add, env).Some?
                      && BoundHash(HolderOf(d, add, env).value, Trim(add.key.value)) != Some(add.hash)))
            && (plan.reply == InvalidParams ==> plan == Unchanged(d.live, InvalidParams))
            && (plan.reply != InvalidParams ==> plan.reply.Receipt?)
  {
    hide Inv, Recall, CurrentHolder, HighestTicketed, FirstWaiting, NextGeneration, Counted;
    hide Trim, BoundHash, Stops, LastForKey;
    NoLostGeneration(d, add, env);
    if Acceptable(add) {
      var swept := SweepQueue(d.live, env.now);
      var subject := add.dispatch.canonicalId.value;
      SweptOk(d, env.now);
      StopsIs(swept.entries, subject);
      if LiveEntryForSubject(swept.entries, subject).Some? {
        StopIsNamed(swept, LiveEntryForSubject(swept.entries, subject).value, subject);
      }
    }
  }

  /** Keys that differ in surrounding white space are one key. */
  lemma SpacesDoNotMatter(d: Disk, ev: Event, run: seq<Event>, again: AddRequest, env: Env)
    requires Inv(d) && Possible(d, ev) && Received(d, ev) && ev.call.add.key.Some? && IsRun(Next(d, ev), run)
    requires !Malformed(again) && again.key.Some? && Trim(again.key.value) == Trim(ev.call.add.key.value)
    ensures var first := PlanOf(d, ev.call, ev.env).reply;
            var reply := PlanOf(After(Next(d, ev), run), EnqueueV2(again), env).reply;
            reply == if again.hash == ev.call.add.hash then Receipt(false, first.entryId, first.subject, false)
                     else InvalidParams
  {
    hide Inv, Next, PlanOf, Trim;
    KeyRemembered(d, ev, run, Trim(again.key.value), again, env);
  }

  // ---------------------------------------------------------------------
  // Branches
  // ---------------------------------------------------------------------

  predicate IsRunningRow(d: Disk, id: string) {
    IsLive(d, id) && LiveRow(d, id).status == Assigned
  }

  /** The entry holds the reservation its add named, from the add on. */
  lemma ReservationStays(d: Disk, ev: Event, run: seq<Event>)
    requires Inv(d) && Possible(d, ev) && Received(d, ev) && PlanOf(d, ev.call, ev.env).reply.enqueued
    requires IsRun(Next(d, ev), run)
    ensures var after := After(Next(d, ev), run);
            && Version(after, ev.env.entryId).Some?
            && Version(after, ev.env.entryId).value.repository == ev.call.add.repository
  {
    hide Inv, Next, Possible, PlanOf, Advances;
    var made := Next(d, ev);
    EventKeeps(d, ev);
    AddedRow(d, ev);
    RunAdvances(made, run);
    VersionAdvances(made, After(made, run), ev.env.entryId);
    KeepsReservation(Version(made, ev.env.entryId).value, Version(After(made, run), ev.env.entryId).value);
  }

  lemma KeepsReservation(a: Entry, b: Entry)
    requires Grows(a, b)
    ensures b.repository == a.repository
  {
  }

  lemma AddedRow(d: Disk, ev: Event)
    requires Inv(d) && Possible(d, ev) && Received(d, ev) && PlanOf(d, ev.call, ev.env).reply.enqueued
    requires Inv(Next(d, ev))
    ensures Version(Next(d, ev), ev.env.entryId).Some?
    ensures Version(Next(d, ev), ev.env.entryId).value.repository == ev.call.add.repository
  {
    hide Inv, PlanEnqueueV2, Recall, Trim, Kept;
    NewAddIsExact(d, ev.call.add, ev.env);
    var entries := Next(d, ev).live.entries;
    UniqueLive(Next(d, ev));
    LiveIs(Next(d, ev), entries[|entries| - 1]);
  }

  /** Branch exclusion for callers: entries whose accepted adds named the same branch never run together. */
  lemma AddedBranchesRunOnce(d: Disk, first: Event, mid: seq<Event>, second: Event, run: seq<Event>)
    requires Inv(d) && Possible(d, first) && Received(d, first) && PlanOf(d, first.call, first.env).reply.enqueued
    requires IsRun(Next(d, first), mid)
    requires var later := After(Next(d, first), mid);
             && Possible(later, second) && Received(later, second)
             && PlanOf(later, second.call, second.env).reply.enqueued
             && IsRun(Next(later, second), run)
    requires first.call.add.repository.Some? && second.call.add.repository.Some?
    requires first.call.add.repository.value.collisionKey == second.call.add.repository.value.collisionKey
    ensures var after := After(Next(After(Next(d, first), mid), second), run);
            !(IsRunningRow(after, first.env.entryId) && IsRunningRow(after, second.env.entryId))
  {
    hide Inv, Next, Possible, PlanOf, Advances, Version;
    var made, later := Next(d, first), After(Next(d, first), mid);
    var also := Next(later, second);
    var after := After(also, run);
    var a, b := first.env.entryId, second.env.entryId;
    EventKeeps(d, first);
    RunAdvances(made, mid);
    ReservationStays(d, first, mid);
    IdsDiffer(later, second, a);
    EventKeeps(later, second);
    EventAdvances(later, second);
    RunAdvances(also, run);
    VersionAdvances(later, also, a);
    VersionAdvances(also, after, a);
    KeepsReservation(Version(later, a).value, Version(also, a).value);
    KeepsReservation(Version(also, a).value, Version(after, a).value);
    ReservationStays(later, second, run);
    if IsRunningRow(after, a) && IsRunningRow(after, b) {
      BothRun(after, a, b);
    }
  }

  lemma IdsDiffer(d: Disk, ev: Event, id: string)
    requires Possible(d, ev) && Version(d, id).Some?
    ensures id != ev.env.entryId
  {
    LastForEntryIs(d.log, id);
  }

  lemma BothRun(d: Disk, a: string, b: string)
    requires Inv(d) && a != b && IsRunningRow(d, a) && IsRunningRow(d, b)
    ensures var x, y := Version(d, a).value.repository, Version(d, b).value.repository;
            x.Some? && y.Some? ==> x.value.collisionKey != y.value.collisionKey
  {
    hide RowOk, Coherent, Separate;
    assert !Clash(LiveRow(d, a), LiveRow(d, b));
  }
}
