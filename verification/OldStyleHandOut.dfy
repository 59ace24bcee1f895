/** The old-style hand-out is a greedy scan that never touches a ticketed row. */
module OldStyleHandOut {
  import opened Wrappers
  import opened QueueState
  import opened QueueHistory
  import opened QueueService
  import opened Machine
  import opened Effects

  /** Why an eligible row at `i` was passed over: excluded, a repeat of an earlier choice, or past a full batch. */
  ghost predicate PassedOver(entries: seq<Entry>, chosen: seq<nat>, exclude: set<string>, max: nat, i: nat)
    requires i < |entries|
    requires forall k :: 0 <= k < |chosen| ==> chosen[k] < |entries|
  {
    || SubjectIdRef(entries[i]) in exclude
    || (exists k :: 0 <= k < |chosen| && chosen[k] < i && SubjectIdRef(entries[chosen[k]]) == SubjectIdRef(entries[i]))
    || (|chosen| == max && forall k :: 0 <= k < |chosen| ==> chosen[k] < i)
  }

  /** `chosen` is what a greedy scan in queue order takes. */
  ghost predicate GreedyChoice(entries: seq<Entry>, chosen: seq<nat>, exclude: set<string>, max: nat, now: Instant) {
    && |chosen| <= max
    && (forall k :: 0 <= k < |chosen| ==> chosen[k] < |entries|)
    && (forall k, l :: 0 <= k < l < |chosen| ==> chosen[k] < chosen[l])
    && (forall k :: 0 <= k < |chosen| ==>
          Eligible(entries[chosen[k]], now) && SubjectIdRef(entries[chosen[k]]) !in exclude)
    && (forall k, l :: 0 <= k < l < |chosen| ==> SubjectIdRef(entries[chosen[k]]) != SubjectIdRef(entries[chosen[l]]))
    && (forall i: nat :: i < |entries| && Eligible(entries[i], now) && i !in chosen ==>
          PassedOver(entries, chosen, exclude, max, i))
  }

  /** The same, for the part of the scan from `from` on. */
  ghost predicate GreedyFrom(entries: seq<Entry>, chosen: seq<nat>, from: nat, exclude: set<string>, room: nat,
                             now: Instant)
  {
    && |chosen| <= room
    && (forall k :: 0 <= k < |chosen| ==> from <= chosen[k] < |entries|)
    && (forall k, l :: 0 <= k < l < |chosen| ==> chosen[k] < chosen[l])
    && (forall k :: 0 <= k < |chosen| ==>
          Eligible(entries[chosen[k]], now) && SubjectIdRef(entries[chosen[k]]) !in exclude)
    && (forall k, l :: 0 <= k < l < |chosen| ==> SubjectIdRef(entries[chosen[k]]) != SubjectIdRef(entries[chosen[l]]))
    && (forall i: nat :: from <= i < |entries| && Eligible(entries[i], now) && i !in chosen ==>
          PassedOver(entries, chosen, exclude, room, i))
  }

  lemma {:induction false} ChooseIsGreedy(entries: seq<Entry>, i: nat, exclude: set<string>, room: nat, now: Instant)
    requires i <= |entries|
    ensures GreedyFrom(entries, Choose(entries, i, exclude, room, now), i, exclude, room, now)
    decreases |entries| - i
  {
    hide Eligible, SubjectIdRef;
    if room > 0 && i < |entries| {
      if Eligible(entries[i], now) && SubjectIdRef(entries[i]) !in exclude {
        var subject := SubjectIdRef(entries[i]);
        ChooseIsGreedy(entries, i + 1, exclude + {subject}, room - 1, now);
        TakeIsGreedy(entries, Choose(entries, i + 1, exclude + {subject}, room - 1, now), i, exclude, room, now);
      } else {
        ChooseIsGreedy(entries, i + 1, exclude, room, now);
      }
    }
  }

  lemma TakeIsGreedy(entries: seq<Entry>, rest: seq<nat>, i: nat, exclude: set<string>, room: nat, now: Instant)
    requires room > 0 && i < |entries| && Eligible(entries[i], now) && SubjectIdRef(entries[i]) !in exclude
    requires GreedyFrom(entries, rest, i + 1, exclude + {SubjectIdRef(entries[i])}, room - 1, now)
    ensures GreedyFrom(entries, [i] + rest, i, exclude, room, now)
  {
    hide Eligible, SubjectIdRef, PassedOver;
    var chosen := [i] + rest;
    forall j: nat | i <= j < |entries| && Eligible(entries[j], now) && j !in chosen
      ensures PassedOver(entries, chosen, exclude, room, j)
    {
      assert j !in rest && j != i;
      StillPassedOver(entries, rest, i, exclude, room, j);
    }
  }

  lemma StillPassedOver(entries: seq<Entry>, rest: seq<nat>, i: nat, exclude: set<string>, room: nat, j: nat)
    requires room > 0 && i < j < |entries|
    requires forall k :: 0 <= k < |rest| ==> rest[k] < |entries|
    requires PassedOver(entries, rest, exclude + {SubjectIdRef(entries[i])}, room - 1, j)
    ensures PassedOver(entries, [i] + rest, exclude, room, j)
  {
    hide SubjectIdRef;
    var chosen := [i] + rest;
    if SubjectIdRef(entries[j]) == SubjectIdRef(entries[i]) {
      assert chosen[0] < j;
    } else if exists k :: 0 <= k < |rest| && rest[k] < j && SubjectIdRef(entries[rest[k]]) == SubjectIdRef(entries[j]) {
      var k :| 0 <= k < |rest| && rest[k] < j && SubjectIdRef(entries[rest[k]]) == SubjectIdRef(entries[j]);
      assert chosen[k + 1] == rest[k];
    }
  }

  /** Row `e` was handed out as `f`: it keeps its workflow id, or gets the one for its slot. */
  ghost predicate SlotGiven(e: Entry, f: Entry, slot: nat, workflowIds: Option<seq<string>>, env: Env)
    requires workflowIds.Some? ==> slot < |workflowIds.value|
    requires slot < |env.workflowIds|
  {
    && f.workflowId.Some?
    && f == OldStyleAssigned(e, f.workflowId.value, env.now, ExpiryOf(env))
    && (NonEmpty(e.workflowId).Some? ==> f.workflowId == e.workflowId)
    && (NonEmpty(e.workflowId).None? ==>
          f.workflowId == Some(if workflowIds.Some? then workflowIds.value[slot] else env.workflowIds[slot]))
  }

  /** What the hand-out does to the swept rows: slot `k` assigns row `chosen[k]`, every other row stays. */
  ghost predicate SlotsAssigned(before: seq<Entry>, after: seq<Entry>, chosen: seq<nat>,
                                workflowIds: Option<seq<string>>, env: Env)
    requires workflowIds.Some? ==> |chosen| <= |workflowIds.value|
    requires |chosen| <= |env.workflowIds|
    requires forall k :: 0 <= k < |chosen| ==> chosen[k] < |before|
  {
    && |after| == |before|
    && (forall i: nat :: i < |before| && i !in chosen ==> after[i] == before[i])
    && (forall k: nat :: k < |chosen| ==> SlotGiven(before[chosen[k]], after[chosen[k]], k, workflowIds, env))
  }

  lemma SlotIsGiven(e: Entry, slot: nat, workflowIds: Option<seq<string>>, env: Env)
    requires workflowIds.Some? ==> slot < |workflowIds.value|
    requires slot < |env.workflowIds|
    ensures var workflow := SlotWorkflow(e, slot, workflowIds, env.workflowIds);
            SlotGiven(e, OldStyleAssigned(e, workflow, env.now, ExpiryOf(env)), slot, workflowIds, env)
  {
  }

  /** The old-style hand-out takes a greedy choice of the swept rows, and replies the rows it assigned, in order. */
  lemma OldStyleLeaseIsGreedy(q: Queue, max: nat, workflowIds: Option<seq<string>>, exclude: seq<string>, env: Env)
    returns (chosen: seq<nat>)
    requires max <= |env.workflowIds| && max > 0
    requires workflowIds.Some? ==> |workflowIds.value| == max
    ensures chosen == Taken(q, max, workflowIds, exclude, env.now)
    ensures var kept := Kept(q.entries, env.now);
            var plan := PlanLease(q, max, workflowIds, exclude, env);
            && GreedyChoice(kept, chosen, Subjects(exclude), max, env.now)
            && plan.finished == SweepFinished(q, env.now)
            && plan.queue.counters == q.counters
            && SlotsAssigned(kept, plan.queue.entries, chosen, workflowIds, env)
            && plan.reply == Leased(Pick(plan.queue.entries, chosen))
  {
    hide Kept, Swept, SweepRecords, Choose, AssignSlots, SlotsAssigned, GreedyChoice, GreedyFrom;
    var kept := Kept(q.entries, env.now);
    chosen := Choose(kept, 0, Subjects(exclude), max, env.now);
    ChooseBounds(kept, 0, Subjects(exclude), max, env.now);
    ChooseRows(kept, 0, Subjects(exclude), max, env.now);
    ChooseIsGreedy(kept, 0, Subjects(exclude), max, env.now);
    GreedyWhole(kept, chosen, Subjects(exclude), max, env.now);
    SlotsAreAssigned(kept, chosen, workflowIds, env);
    if chosen == [] && SweepFinished(q, env.now) == [] {
      NoneSwept(q, env.now);
      NoneAssigned(kept, workflowIds, env);
    }
  }

  lemma NoneAssigned(entries: seq<Entry>, workflowIds: Option<seq<string>>, env: Env)
    ensures AssignSlots(entries, [], 0, workflowIds, env.workflowIds, env.now, ExpiryOf(env)) == entries
    ensures Pick(entries, []) == []
  {
  }

  lemma SlotsAreAssigned(entries: seq<Entry>, chosen: seq<nat>, workflowIds: Option<seq<string>>, env: Env)
    requires workflowIds.Some? ==> |chosen| <= |workflowIds.value|
    requires |chosen| <= |env.workflowIds|
    requires forall k :: 0 <= k < |chosen| ==> chosen[k] < |entries|
    requires forall k, l :: 0 <= k < l < |chosen| ==> chosen[k] < chosen[l]
    ensures var after := AssignSlots(entries, chosen, |chosen|, workflowIds, env.workflowIds, env.now, ExpiryOf(env));
            SlotsAssigned(entries, after, chosen, workflowIds, env)
  {
    hide AssignSlots, SlotGiven, SlotWorkflow, OldStyleAssigned;
    SlotRows(entries, chosen, |chosen|, workflowIds, env);
    assert chosen[..|chosen|] == chosen;
    var after := AssignSlots(entries, chosen, |chosen|, workflowIds, env.workflowIds, env.now, ExpiryOf(env));
    forall k: nat | k < |chosen|
      ensures SlotGiven(entries[chosen[k]], after[chosen[k]], k, workflowIds, env)
    {
      SlotIsGiven(entries[chosen[k]], k, workflowIds, env);
    }
  }

  lemma GreedyWhole(entries: seq<Entry>, chosen: seq<nat>, exclude: set<string>, max: nat, now: Instant)
    requires GreedyFrom(entries, chosen, 0, exclude, max, now)
    ensures GreedyChoice(entries, chosen, exclude, max, now)
  {
    hide Eligible, SubjectIdRef, PassedOver;
  }

  /** A ticketed row the sweep keeps stays where it is and as it is. */
  lemma TicketedRowsUntouched(q: Queue, max: nat, workflowIds: Option<seq<string>>, exclude: seq<string>, env: Env,
                              i: nat)
    requires max <= |env.workflowIds| && max > 0
    requires workflowIds.Some? ==> |workflowIds.value| == max
    requires i < |Kept(q.entries, env.now)| && Ticketed(Kept(q.entries, env.now)[i])
    ensures var after := PlanLease(q, max, workflowIds, exclude, env).queue.entries;
            i < |after| && after[i] == Kept(q.entries, env.now)[i]
  {
    hide Kept, PlanLease, Swept, SubjectIdRef;
    var chosen := OldStyleLeaseIsGreedy(q, max, workflowIds, exclude, env);
    assert i !in chosen;
  }

  // ---------------------------------------------------------------------
  // When a hand-out keeps every subject to one running row
  // ---------------------------------------------------------------------

  /** No two running rows have the same subject, as old-style calls see it. */
  ghost predicate OneRunning(entries: seq<Entry>) {
    forall i, j :: 0 <= i < j < |entries| && entries[i].status == Assigned && entries[j].status == Assigned ==>
      SubjectIdRef(entries[i]) != SubjectIdRef(entries[j])
  }

  /** The rows a hand-out takes, as positions in the swept queue. */
  function Taken(q: Queue, max: nat, workflowIds: Option<seq<string>>, exclude: seq<string>, now: Instant): seq<nat> {
    if workflowIds.Some? && |workflowIds.value| != max then []
    else Choose(Kept(q.entries, now), 0, Subjects(exclude), max, now)
  }

  /** No taken row has the subject of a running row that is not taken. */
  ghost predicate TakesApart(kept: seq<Entry>, taken: seq<nat>)
    requires forall k :: 0 <= k < |taken| ==> taken[k] < |kept|
  {
    forall i: nat, k: nat :: i < |kept| && i !in taken && kept[i].status == Assigned && k < |taken| ==>
      SubjectIdRef(kept[i]) != SubjectIdRef(kept[taken[k]])
  }

  /** No two running rows outside the taken ones have the same subject. */
  ghost predicate OneRunningOutside(kept: seq<Entry>, taken: seq<nat>) {
    forall i: nat, j: nat :: i < j < |kept| && i !in taken && j !in taken
                             && kept[i].status == Assigned && kept[j].status == Assigned ==>
      SubjectIdRef(kept[i]) != SubjectIdRef(kept[j])
  }

  /** Row by row, what a hand-out leaves: the subject stays, and a row runs if it ran or was taken. */
  ghost predicate Assigns(kept: seq<Entry>, after: seq<Entry>, taken: seq<nat>) {
    && |after| == |kept|
    && (forall i: nat :: i < |kept| ==> SubjectIdRef(after[i]) == SubjectIdRef(kept[i]))
    && (forall i: nat :: i < |kept| ==> (after[i].status == Assigned <==> kept[i].status == Assigned || i in taken))
  }

  lemma {:induction false} KeptRuns(entries: seq<Entry>, now: Instant)
    ensures OneRunning(Kept(entries, now)) <==> OneRunning(entries)
    ensures forall e :: e in entries && e.status == Assigned ==> e in Kept(entries, now)
  {
    hide SubjectIdRef, Kept, OneRunning;
    NothingToSweep(now);
    if entries != [] {
      var n := |entries| - 1;
      var last := entries[n];
      KeptRuns(entries[..n], now);
      LastRow(entries, now);
      assert entries == entries[..n] + [last];
      OneMoreRuns(entries[..n], last);
      if !Expired(last, now) {
        OneMoreRuns(Kept(entries[..n], now), last);
      }
    }
  }

  lemma OneMoreRuns(entries: seq<Entry>, e: Entry)
    ensures OneRunning(entries + [e]) <==>
              && OneRunning(entries)
              && (e.status == Assigned ==>
                    forall x :: x in entries && x.status == Assigned ==> SubjectIdRef(x) != SubjectIdRef(e))
  {
    hide SubjectIdRef;
    var all := entries + [e];
    assert forall i :: 0 <= i < |entries| ==> all[i] == entries[i] && entries[i] in entries;
    if OneRunning(all) {
      forall x | x in entries && x.status == Assigned && e.status == Assigned
        ensures SubjectIdRef(x) != SubjectIdRef(e)
      {
        var i :| 0 <= i < |entries| && entries[i] == x;
        assert all[i] == x && all[|entries|] == e;
      }
      forall i, j | 0 <= i < j < |entries| && entries[i].status == Assigned && entries[j].status == Assigned
        ensures SubjectIdRef(entries[i]) != SubjectIdRef(entries[j])
      {
        assert all[i] == entries[i] && all[j] == entries[j];
      }
    }
  }

  lemma SlotsAssign(kept: seq<Entry>, after: seq<Entry>, taken: seq<nat>, workflowIds: Option<seq<string>>, env: Env)
    requires workflowIds.Some? ==> |taken| <= |workflowIds.value|
    requires |taken| <= |env.workflowIds|
    requires forall k :: 0 <= k < |taken| ==> taken[k] < |kept|
    requires SlotsAssigned(kept, after, taken, workflowIds, env)
    ensures Assigns(kept, after, taken)
  {
    forall i: nat | i < |kept|
      ensures SubjectIdRef(after[i]) == SubjectIdRef(kept[i])
      ensures after[i].status == Assigned <==> kept[i].status == Assigned || i in taken
    {
      if i in taken {
        var k :| 0 <= k < |taken| && taken[k] == i;
        assert SlotGiven(kept[taken[k]], after[taken[k]], k, workflowIds, env);
      }
    }
  }

  lemma RunsOnceIff(kept: seq<Entry>, after: seq<Entry>, taken: seq<nat>)
    requires Assigns(kept, after, taken)
    requires forall k :: 0 <= k < |taken| ==> taken[k] < |kept|
    requires forall k, l :: 0 <= k < l < |taken| ==> SubjectIdRef(kept[taken[k]]) != SubjectIdRef(kept[taken[l]])
    ensures OneRunning(after) <==> OneRunningOutside(kept, taken) && TakesApart(kept, taken)
  {
    hide SubjectIdRef;
    if OneRunning(after) {
      forall i: nat, k: nat | i < |kept| && i !in taken && kept[i].status == Assigned && k < |taken|
        ensures SubjectIdRef(kept[i]) != SubjectIdRef(kept[taken[k]])
      {
        assert taken[k] in taken;
      }
    } else {
      var i: nat, j: nat :| i < j < |after| && after[i].status == Assigned && after[j].status == Assigned
                            && SubjectIdRef(after[i]) == SubjectIdRef(after[j]);
      TakenDiffer(kept, taken, i, j);
    }
  }

  lemma TakenDiffer(kept: seq<Entry>, taken: seq<nat>, i: nat, j: nat)
    requires forall k :: 0 <= k < |taken| ==> taken[k] < |kept|
    requires forall k, l :: 0 <= k < l < |taken| ==> SubjectIdRef(kept[taken[k]]) != SubjectIdRef(kept[taken[l]])
    requires i != j
    ensures i in taken && j in taken ==> SubjectIdRef(kept[i]) != SubjectIdRef(kept[j])
  {
    hide SubjectIdRef;
  }

  /**
   * Any queue and any old-style hand-out: afterwards no subject runs twice exactly if the running rows it leaves alone
   * have subjects of their own, and none of them shares its subject with a row it takes.
   */
  lemma HandOutRunsOnce(q: Queue, max: nat, workflowIds: Option<seq<string>>, exclude: seq<string>, env: Env)
    requires max <= |env.workflowIds|
    ensures var kept := Kept(q.entries, env.now);
            var taken := Taken(q, max, workflowIds, exclude, env.now);
            && (forall k :: 0 <= k < |taken| ==> taken[k] < |kept|)
            && (OneRunning(PlanLease(q, max, workflowIds, exclude, env).queue.entries)
                <==> OneRunningOutside(kept, taken) && TakesApart(kept, taken))
  {
    hide Kept, PlanLease, Choose, OneRunning, OneRunningOutside, TakesApart, SlotsAssigned, SubjectIdRef;
    var kept := Kept(q.entries, env.now);
    KeptRuns(q.entries, env.now);
    if (workflowIds.Some? && |workflowIds.value| != max) || max == 0 {
      NothingTaken(kept, Subjects(exclude), env.now);
      NoHandOut(q, max, workflowIds, exclude, env);
    } else {
      var taken := OldStyleLeaseIsGreedy(q, max, workflowIds, exclude, env);
      var after := PlanLease(q, max, workflowIds, exclude, env).queue.entries;
      SlotsAssign(kept, after, taken, workflowIds, env);
      RunsOnceIff(kept, after, taken);
    }
  }

  lemma NothingTaken(kept: seq<Entry>, exclude: set<string>, now: Instant)
    ensures Choose(kept, 0, exclude, 0, now) == []
    ensures OneRunning(kept) <==> OneRunningOutside(kept, [])
    ensures TakesApart(kept, [])
  {
    hide SubjectIdRef;
  }

  lemma NoHandOut(q: Queue, max: nat, workflowIds: Option<seq<string>>, exclude: seq<string>, env: Env)
    requires max <= |env.workflowIds| && ((workflowIds.Some? && |workflowIds.value| != max) || max == 0)
    ensures PlanLease(q, max, workflowIds, exclude, env).queue == q
  {
  }

  /** Where no subject runs twice, the hand-out keeps it so exactly if it takes no copy of a row that runs on. */
  lemma HandOutKeepsOneRunning(q: Queue, max: nat, workflowIds: Option<seq<string>>, exclude: seq<string>, env: Env)
    requires max <= |env.workflowIds| && OneRunning(q.entries)
    ensures var kept := Kept(q.entries, env.now);
            var taken := Taken(q, max, workflowIds, exclude, env.now);
            && (forall k :: 0 <= k < |taken| ==> taken[k] < |kept|)
            && (OneRunning(PlanLease(q, max, workflowIds, exclude, env).queue.entries) <==> TakesApart(kept, taken))
  {
    hide Kept, PlanLease, SubjectIdRef, TakesApart, Taken;
    HandOutRunsOnce(q, max, workflowIds, exclude, env);
    KeptRuns(q.entries, env.now);
  }

  /** What `exclude_subjects` is for: with every running row's subject excluded, no subject ever comes to run twice. */
  lemma ExcludingIsEnough(q: Queue, max: nat, workflowIds: Option<seq<string>>, exclude: seq<string>, env: Env)
    requires max <= |env.workflowIds| && OneRunning(q.entries)
    requires forall e :: e in q.entries && e.status == Assigned ==> SubjectIdRef(e) in exclude
    ensures OneRunning(PlanLease(q, max, workflowIds, exclude, env).queue.entries)
  {
    hide Kept, PlanLease, SubjectIdRef, Choose;
    HandOutKeepsOneRunning(q, max, workflowIds, exclude, env);
    var kept := Kept(q.entries, env.now);
    ChooseIsGreedy(kept, 0, Subjects(exclude), max, env.now);
    assert forall i :: 0 <= i < |kept| ==> kept[i] in kept;
  }

  /** Running row `i` and eligible row `j` have one subject, and the scan would take `j` and leave `i` running. */
  ghost predicate RunsBeside(kept: seq<Entry>, now: Instant, i: nat, j: nat) {
    && i < |kept| && j < |kept| && i != j
    && kept[i].status == Assigned && Eligible(kept[j], now)
    && SubjectIdRef(kept[i]) == SubjectIdRef(kept[j])
    && (!Eligible(kept[i], now) || j < i)
  }

  /**
   * A hand-out with room for every row: it keeps every subject to one running row exactly if the caller excludes each
   * subject that has both a running row and an eligible copy the scan comes to first.
   */
  lemma ExcludingIsExact(q: Queue, max: nat, workflowIds: Option<seq<string>>, exclude: seq<string>, env: Env)
    requires |Kept(q.entries, env.now)| <= max <= |env.workflowIds| && OneRunning(q.entries)
    requires workflowIds.Some? ==> |workflowIds.value| == max
    ensures OneRunning(PlanLease(q, max, workflowIds, exclude, env).queue.entries)
            <==> forall i: nat, j: nat :: RunsBeside(Kept(q.entries, env.now), env.now, i, j) ==>
                   SubjectIdRef(Kept(q.entries, env.now)[i]) in exclude
  {
    hide Kept, PlanLease, SubjectIdRef, Choose, Eligible, GreedyFrom, TakesApart, OneRunning;
    HandOutKeepsOneRunning(q, max, workflowIds, exclude, env);
    var kept := Kept(q.entries, env.now);
    var taken := Taken(q, max, workflowIds, exclude, env.now);
    ChooseIsGreedy(kept, 0, Subjects(exclude), max, env.now);
    GreedyWhole(kept, taken, Subjects(exclude), max, env.now);
    ApartIff(kept, taken, Subjects(exclude), max, env.now);
  }

  lemma ApartIff(kept: seq<Entry>, taken: seq<nat>, exclude: set<string>, max: nat, now: Instant)
    requires GreedyChoice(kept, taken, exclude, max, now) && |kept| <= max
    ensures TakesApart(kept, taken) <==>
              forall i: nat, j: nat :: RunsBeside(kept, now, i, j) ==> SubjectIdRef(kept[i]) in exclude
  {
    hide SubjectIdRef, Eligible, GreedyChoice, PassedOver;
    GreedyBounds(kept, taken, exclude, max, now);
    if TakesApart(kept, taken) {
      forall i: nat, j: nat | RunsBeside(kept, now, i, j)
        ensures SubjectIdRef(kept[i]) in exclude
      {
        if SubjectIdRef(kept[i]) !in exclude {
          var k := FirstOfSubject(kept, taken, exclude, max, now, j);
          NotBoth(kept, taken, exclude, max, now, i, j, k);
        }
      }
    }
    if !TakesApart(kept, taken) {
      var i: nat, k: nat :| i < |kept| && i !in taken && kept[i].status == Assigned && k < |taken|
                            && SubjectIdRef(kept[i]) == SubjectIdRef(kept[taken[k]]);
      TakenIsEligible(kept, taken, exclude, max, now, k);
      if Eligible(kept[i], now) {
        var m := FirstOfSubject(kept, taken, exclude, max, now, i);
        TakenIsEligible(kept, taken, exclude, max, now, m);
        assert RunsBeside(kept, now, i, taken[m]);
      } else {
        assert RunsBeside(kept, now, i, taken[k]);
      }
    }
  }

  lemma GreedyBounds(kept: seq<Entry>, taken: seq<nat>, exclude: set<string>, max: nat, now: Instant)
    requires GreedyChoice(kept, taken, exclude, max, now)
    ensures forall k :: 0 <= k < |taken| ==> taken[k] < |kept|
  {
  }

  lemma TakenIsEligible(kept: seq<Entry>, taken: seq<nat>, exclude: set<string>, max: nat, now: Instant, k: nat)
    requires GreedyChoice(kept, taken, exclude, max, now) && k < |taken|
    ensures taken[k] < |kept| && Eligible(kept[taken[k]], now) && SubjectIdRef(kept[taken[k]]) !in exclude
  {
    hide SubjectIdRef, Eligible, PassedOver;
  }

  /** With room for every row, an eligible row that is not excluded is taken, or an earlier row of its subject is. */
  lemma FirstOfSubject(kept: seq<Entry>, taken: seq<nat>, exclude: set<string>, max: nat, now: Instant, j: nat)
    returns (k: nat)
    requires GreedyChoice(kept, taken, exclude, max, now) && |kept| <= max
    requires j < |kept| && Eligible(kept[j], now) && SubjectIdRef(kept[j]) !in exclude
    ensures k < |taken| && taken[k] <= j && taken[k] < |kept| && SubjectIdRef(kept[taken[k]]) == SubjectIdRef(kept[j])
  {
    hide SubjectIdRef, Eligible;
    if j in taken {
      k :| k < |taken| && taken[k] == j;
    } else {
      assert PassedOver(kept, taken, exclude, max, j);
      if |taken| == max && forall k :: 0 <= k < |taken| ==> taken[k] < j {
        IncreasingFits(taken, j);
      }
      k :| 0 <= k < |taken| && taken[k] < j && SubjectIdRef(kept[taken[k]]) == SubjectIdRef(kept[j]);
    }
  }

  lemma {:induction false} IncreasingFits(taken: seq<nat>, n: nat)
    requires forall k, l :: 0 <= k < l < |taken| ==> taken[k] < taken[l]
    requires forall k :: 0 <= k < |taken| ==> taken[k] < n
    ensures |taken| <= n
  {
    if taken != [] {
      IncreasingFits(taken[..|taken| - 1], taken[|taken| - 1]);
    }
  }

  lemma NotBoth(kept: seq<Entry>, taken: seq<nat>, exclude: set<string>, max: nat, now: Instant, i: nat, j: nat, k: nat)
    requires GreedyChoice(kept, taken, exclude, max, now) && RunsBeside(kept, now, i, j)
    requires k < |taken| && taken[k] <= j && SubjectIdRef(kept[taken[k]]) == SubjectIdRef(kept[j])
    ensures !TakesApart(kept, taken)
  {
    hide SubjectIdRef, Eligible, GreedyChoice;
    GreedyBounds(kept, taken, exclude, max, now);
    OneTaken(kept, taken, exclude, max, now, i, k);
  }

  /** A subject is taken once, and only from an eligible row. */
  lemma OneTaken(kept: seq<Entry>, taken: seq<nat>, exclude: set<string>, max: nat, now: Instant, i: nat, k: nat)
    requires GreedyChoice(kept, taken, exclude, max, now) && i < |kept| && k < |taken| && taken[k] < |kept|
    requires SubjectIdRef(kept[taken[k]]) == SubjectIdRef(kept[i])
    ensures i in taken ==> taken[k] == i && Eligible(kept[i], now)
  {
    hide SubjectIdRef, Eligible, PassedOver;
  }

  /** The row a `mark_assigned` would set running. */
  function Marked(q: Queue, id: string): Option<nat> {
    var p := Position(q.entries, id);
    if p.Some? && q.entries[p.value].status == Pending && !Ticketed(q.entries[p.value]) then p else None
  }

  /** `mark_assigned` keeps every subject to one running row exactly if the row it sets running is no copy of one. */
  lemma MarkingKeepsOneRunning(q: Queue, past: Option<Record>, id: string, workflowId: Option<string>, env: Env)
    requires OneRunning(q.entries)
    ensures OneRunning(Perform(q, past, MarkAssigned(id, workflowId), env).queue.entries)
            <==> (Marked(q, id).Some? ==>
                    var i := Marked(q, id).value;
                    forall j :: 0 <= j < |q.entries| && q.entries[j].status == Assigned ==>
                      SubjectIdRef(q.entries[j]) != SubjectIdRef(q.entries[i]))
  {
    var after := Perform(q, past, MarkAssigned(id, workflowId), env).queue.entries;
    if Marked(q, id).Some? {
      var i := Marked(q, id).value;
      MarkedRow(q, past, id, workflowId, env);
      RunsOnceIff(q.entries, after, [i]);
      OutsideIs(q.entries, i);
    }
  }

  lemma MarkedRow(q: Queue, past: Option<Record>, id: string, workflowId: Option<string>, env: Env)
    requires Marked(q, id).Some?
    ensures Marked(q, id).value < |q.entries| && q.entries[Marked(q, id).value].status == Pending
    ensures Assigns(q.entries, Perform(q, past, MarkAssigned(id, workflowId), env).queue.entries, [Marked(q, id).value])
  {
  }

  lemma OutsideIs(entries: seq<Entry>, i: nat)
    requires i < |entries| && OneRunning(entries) && entries[i].status == Pending
    ensures OneRunningOutside(entries, [i])
    ensures TakesApart(entries, [i]) <==>
              forall j :: 0 <= j < |entries| && entries[j].status == Assigned ==>
                SubjectIdRef(entries[j]) != SubjectIdRef(entries[i])
  {
    hide SubjectIdRef;
    assert [i][0] == i;
  }

  // ---------------------------------------------------------------------
  // Old-style adds
  // ---------------------------------------------------------------------

  /** The row an old-style add makes; an unreadable time means now. */
  function AddedRow(id: string, dispatch: Dispatch, runAt: Option<TimeText>, expireAfter: Option<nat>): Entry {
    FromDispatch(id, dispatch, if runAt.Some? && runAt.value.instant.Some? then runAt else None, expireAfter)
  }

  /**
   * Any queue, whatever rows of the subject it holds: an old-style add with a subject appends one row to the swept
   * queue, and it leaves the queue as it was exactly if its dispatch has no subject.
   */
  lemma AddAlwaysAppends(q: Queue, dispatch: Dispatch, runAt: Option<TimeText>, expireAfter: Option<nat>, env: Env)
    requires env.entryId !in Ids(q.entries)
    ensures var plan := PlanEnqueue(q, dispatch, runAt, expireAfter, env);
            && (dispatch.legacyKey.Some? ==>
                  && plan.queue.entries
                     == Kept(q.entries, env.now) + [AddedRow(env.entryId, dispatch, runAt, expireAfter)]
                  && plan.reply.Added? && plan.reply.entryId == env.entryId)
            && (dispatch.legacyKey.None? ==> plan == Unchanged(q, InvalidParams))
            && (plan.queue == q <==> dispatch.legacyKey.None?)
  {
    hide Kept, Swept;
    if dispatch.legacyKey.Some? {
      var plan := PlanEnqueue(q, dispatch, runAt, expireAfter, env);
      var e := plan.queue.entries[|plan.queue.entries| - 1];
      assert e.id == env.entryId;
      assert e in plan.queue.entries;
    }
  }

  /** Adding the same immediate work twice appends two rows of different ids, and loses none but what expired. */
  lemma AddedTwice(q: Queue, dispatch: Dispatch, expireAfter: Option<nat>, first: Env, second: Env)
    requires dispatch.legacyKey.Some?
    requires second.entryId !in Ids(PlanEnqueue(q, dispatch, None, expireAfter, first).queue.entries)
    ensures var once := PlanEnqueue(q, dispatch, None, expireAfter, first).queue;
            var twice := PlanEnqueue(once, dispatch, None, expireAfter, second).queue;
            && twice.entries == Kept(Kept(q.entries, first.now), second.now)
                                + [AddedRow(first.entryId, dispatch, None, expireAfter),
                                   AddedRow(second.entryId, dispatch, None, expireAfter)]
            && first.entryId != second.entryId
  {
    hide Kept, Swept;
    var row := AddedRow(first.entryId, dispatch, None, expireAfter);
    var once := Kept(q.entries, first.now) + [row];
    LastRow(once, second.now);
    assert once[..|once| - 1] == Kept(q.entries, first.now);
    assert row in once && row.id == first.entryId;
  }
}
