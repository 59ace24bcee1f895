/** The old-style calls field by field: what subject a row has, which rows are given, and what each call leaves. */
module OldStyleRows {
  import opened Wrappers
  import opened Text
  import opened QueueState
  import opened QueueHistory
  import opened QueueService
  import opened Machine
  import opened Effects
  import opened Wakeups
  import opened OldStyleHandOut

  // ---------------------------------------------------------------------
  // Subjects
  // ---------------------------------------------------------------------

  /** The subject old-style calls see: the stored text trimmed, else the dispatch's subject id, else the task id. */
  lemma SubjectText(e: Entry)
    ensures e.subject.Some? && Trim(e.subject.value) != "" ==> SubjectIdRef(e) == Trim(e.subject.value)
    ensures (e.subject.None? || Trim(e.subject.value) == "") && e.dispatch.Some? && e.dispatch.value.subjectId.Some? ==>
              SubjectIdRef(e) == e.dispatch.value.subjectId.value
    ensures var blank := e.subject.None? || Trim(e.subject.value) == "";
            blank && (e.dispatch.None? || e.dispatch.value.subjectId.None?) ==> SubjectIdRef(e) == e.taskId
  {
  }

  // ---------------------------------------------------------------------
  // The hand-out
  // ---------------------------------------------------------------------

  /** An old-style row that may be given: waiting and due, or running past its expiry. */
  ghost predicate Open(e: Entry, now: Instant) {
    && e.subjectGen.None? && e.dispatch.Some?
    && (|| (&& e.status == Pending
            && (e.runAt.Some? && e.runAt.value.instant.Some? ==> e.runAt.value.instant.value <= now))
        || (e.status == Assigned && e.expiresAt.Some? && e.expiresAt.value < now))
  }

  lemma OpenIs(e: Entry, now: Instant)
    ensures Open(e, now) <==> Eligible(e, now)
  {
  }

  /** A hand-out with room for every row takes exactly the first open row of each subject that is not excluded. */
  lemma TakenExactly(q: Queue, max: nat, workflowIds: Option<seq<string>>, exclude: seq<string>, env: Env, j: nat)
    requires |Kept(q.entries, env.now)| <= max && (workflowIds.Some? ==> |workflowIds.value| == max)
    requires j < |Kept(q.entries, env.now)|
    ensures var kept := Kept(q.entries, env.now);
            j in Taken(q, max, workflowIds, exclude, env.now) <==>
              && Open(kept[j], env.now) && SubjectIdRef(kept[j]) !in exclude
              && forall i :: 0 <= i < j && Open(kept[i], env.now) ==> SubjectIdRef(kept[i]) != SubjectIdRef(kept[j])
  {
    hide Kept, Open, Choose, SubjectIdRef, GreedyFrom, GreedyChoice, Eligible;
    var kept, taken := Kept(q.entries, env.now), Taken(q, max, workflowIds, exclude, env.now);
    ChooseIsGreedy(kept, 0, Subjects(exclude), max, env.now);
    GreedyWhole(kept, taken, Subjects(exclude), max, env.now);
    FirstsAreTaken(kept, taken, Subjects(exclude), max, env.now, j);
    forall i | 0 <= i <= j
      ensures Open(kept[i], env.now) <==> Eligible(kept[i], env.now)
    {
      OpenIs(kept[i], env.now);
    }
  }

  lemma FirstsAreTaken(kept: seq<Entry>, taken: seq<nat>, exclude: set<string>, max: nat, now: Instant, j: nat)
    requires GreedyChoice(kept, taken, exclude, max, now) && |kept| <= max && j < |kept|
    ensures j in taken <==>
              && Eligible(kept[j], now) && SubjectIdRef(kept[j]) !in exclude
              && forall i :: 0 <= i < j && Eligible(kept[i], now) ==> SubjectIdRef(kept[i]) != SubjectIdRef(kept[j])
  {
    hide SubjectIdRef, Eligible, GreedyChoice;
    GreedyBounds(kept, taken, exclude, max, now);
    if j in taken {
      var k :| 0 <= k < |taken| && taken[k] == j;
      TakenIsEligible(kept, taken, exclude, max, now, k);
      forall i | 0 <= i < j && Eligible(kept[i], now)
        ensures SubjectIdRef(kept[i]) != SubjectIdRef(kept[j])
      {
        if SubjectIdRef(kept[i]) == SubjectIdRef(kept[j]) {
          var m := FirstOfSubject(kept, taken, exclude, max, now, i);
          OneTaken(kept, taken, exclude, max, now, j, m);
        }
      }
    } else if Eligible(kept[j], now) && SubjectIdRef(kept[j]) !in exclude {
      var m := FirstOfSubject(kept, taken, exclude, max, now, j);
      TakenIsEligible(kept, taken, exclude, max, now, m);
      assert taken[m] in taken;
    }
  }

  /** Two open rows with stored subjects: the first is given, and the second exactly if its text differs. */
  lemma StoredSubjectsDecide(q: Queue, max: nat, workflowIds: Option<seq<string>>, exclude: seq<string>, env: Env,
                             i: nat, j: nat)
    requires |Kept(q.entries, env.now)| <= max && (workflowIds.Some? ==> |workflowIds.value| == max)
    requires i < j < |Kept(q.entries, env.now)|
    requires var kept := Kept(q.entries, env.now);
             && Open(kept[i], env.now) && Open(kept[j], env.now) && kept[i].subject.Some? && kept[j].subject.Some?
             && Trim(kept[i].subject.value) != "" && Trim(kept[j].subject.value) != ""
             && Trim(kept[i].subject.value) !in exclude && Trim(kept[j].subject.value) !in exclude
             && forall k :: 0 <= k < j && k != i && Open(kept[k], env.now) ==>
                  && SubjectIdRef(kept[k]) != Trim(kept[i].subject.value)
                  && SubjectIdRef(kept[k]) != Trim(kept[j].subject.value)
    ensures var kept := Kept(q.entries, env.now);
            && i in Taken(q, max, workflowIds, exclude, env.now)
            && (j in Taken(q, max, workflowIds, exclude, env.now)
                <==> Trim(kept[i].subject.value) != Trim(kept[j].subject.value))
  {
    hide Kept, Open, Taken, SubjectIdRef, Trim;
    var kept := Kept(q.entries, env.now);
    SubjectText(kept[i]);
    SubjectText(kept[j]);
    TakenExactly(q, max, workflowIds, exclude, env, i);
    TakenExactly(q, max, workflowIds, exclude, env, j);
  }

  /** An excluded text keeps every row whose stored subject trims to it out of any hand-out. */
  lemma ExcludedTextIsSkipped(q: Queue, max: nat, workflowIds: Option<seq<string>>, exclude: seq<string>, env: Env,
                              j: nat)
    requires j < |Kept(q.entries, env.now)|
    requires var e := Kept(q.entries, env.now)[j];
             e.subject.Some? && Trim(e.subject.value) != "" && Trim(e.subject.value) in exclude
    ensures j !in Taken(q, max, workflowIds, exclude, env.now)
  {
    hide Kept, Choose, SubjectIdRef, GreedyFrom, Eligible, Trim;
    var kept, taken := Kept(q.entries, env.now), Taken(q, max, workflowIds, exclude, env.now);
    SubjectText(kept[j]);
    ChooseIsGreedy(kept, 0, Subjects(exclude), max, env.now);
    ExcludedIsSkipped(kept, Choose(kept, 0, Subjects(exclude), max, env.now), Subjects(exclude), max, env.now, j);
  }

  lemma ExcludedIsSkipped(kept: seq<Entry>, taken: seq<nat>, exclude: set<string>, max: nat, now: Instant, j: nat)
    requires GreedyFrom(kept, taken, 0, exclude, max, now) && j < |kept| && SubjectIdRef(kept[j]) in exclude
    ensures j !in taken
  {
    hide SubjectIdRef, Eligible, PassedOver;
  }

  /** What the hand-out leaves in slot `k`, field by field, and that it replies just that row. */
  lemma SlotIsExact(q: Queue, max: nat, workflowIds: Option<seq<string>>, exclude: seq<string>, env: Env, k: nat)
    requires 0 < max <= |env.workflowIds| && (workflowIds.Some? ==> |workflowIds.value| == max)
    requires k < |Taken(q, max, workflowIds, exclude, env.now)|
    ensures var plan := PlanLease(q, max, workflowIds, exclude, env);
            var taken := Taken(q, max, workflowIds, exclude, env.now);
            && taken[k] < |Kept(q.entries, env.now)| == |plan.queue.entries| && k < max
            && var e := Kept(q.entries, env.now)[taken[k]];
               var workflow := if e.workflowId.Some? && e.workflowId.value != "" then e.workflowId.value
                               else if workflowIds.Some? then workflowIds.value[k] else env.workflowIds[k];
               var given := e.(status := Assigned, workflowId := Some(workflow), owner := Some(workflow),
                               expiresAt := Some(env.now + env.ttlLimit * SECOND), assignedAt := Some(env.now));
               && plan.queue.entries[taken[k]] == given
               && plan.reply.Leased? && |plan.reply.entries| == |taken| && plan.reply.entries[k] == given
               && !PastWindow(e, env.now)
  {
    hide Kept, PlanLease, Taken, PastWindow, GreedyChoice;
    var taken := OldStyleLeaseIsGreedy(q, max, workflowIds, exclude, env);
    GreedyBounds(Kept(q.entries, env.now), taken, Subjects(exclude), max, env.now);
    GreedyFits(Kept(q.entries, env.now), taken, Subjects(exclude), max, env.now);
    var kept := Kept(q.entries, env.now);
    assert kept[taken[k]] in kept;
    KeptIsNotPast(q, env.now, kept[taken[k]]);
  }

  lemma GreedyFits(kept: seq<Entry>, taken: seq<nat>, exclude: set<string>, max: nat, now: Instant)
    requires GreedyChoice(kept, taken, exclude, max, now)
    ensures |taken| <= max
  {
  }

  lemma KeptIsNotPast(q: Queue, now: Instant, e: Entry)
    requires e in Kept(q.entries, now)
    ensures !PastWindow(e, now)
  {
    SweepIsExact(q, now, e);
  }

  /** A request whose ids do not match its size, or that asks for nothing, changes nothing; no sweep is saved. */
  lemma EmptyHandOuts(q: Queue, max: nat, workflowIds: Option<seq<string>>, exclude: seq<string>, env: Env)
    requires max <= |env.workflowIds|
    ensures workflowIds.Some? && |workflowIds.value| != max ==>
              PlanLease(q, max, workflowIds, exclude, env)
              == Unchanged(q, WorkflowIdCountMismatch(max, |workflowIds.value|))
    ensures max == 0 && (workflowIds.Some? ==> |workflowIds.value| == 0) ==>
              PlanLease(q, max, workflowIds, exclude, env) == Unchanged(q, Leased([]))
  {
  }

  // ---------------------------------------------------------------------
  // Adds
  // ---------------------------------------------------------------------

  /** The row an old-style add makes, field by field. */
  ghost predicate MadeFrom(e: Entry, id: string, dispatch: Dispatch, runAt: Option<TimeText>,
                           expireAfter: Option<nat>)
  {
    && e.id == id && e.status == Pending && e.subject == dispatch.legacyKey && e.dispatch == Some(dispatch)
    && e.taskId == (if dispatch.taskId.Some? then dispatch.taskId.value else "")
    && e.runAt == (if runAt.Some? && runAt.value.instant.Some? then runAt else None) && e.expireAfter == expireAfter
    && e.subjectGen == None && e.workflowGen == None && e.leaseGen == 0 && e.repository == None
    && e.workflowId == None && e.owner == None && e.expiresAt == None && e.assignedAt == None && e.heldAt == None
    && e.key == None && e.hash == None && e.extraKeys == []
  }

  /** The live rows that have the subject already, as positions in the swept queue. */
  ghost function Already(rows: seq<Entry>, subject: string): set<nat> {
    set i: nat | i < |rows| && rows[i].status != Unknown && SubjectIdRef(rows[i]) == subject
  }

  lemma {:induction false} DuplicatesCount(rows: seq<Entry>, subject: string)
    ensures Duplicates(rows, subject) == |Already(rows, subject)|
  {
    hide SubjectIdRef;
    if rows != [] {
      var rest := Already(rows[1..], subject);
      DuplicatesCount(rows[1..], subject);
      var moved := set i | i in rest :: i + 1;
      SameSize(rest, moved);
      assert forall i :: 0 <= i < |rows| - 1 ==> rows[i + 1] == rows[1..][i];
      var first := rows[0].status != Unknown && SubjectIdRef(rows[0]) == subject;
      forall i: nat
        ensures i in Already(rows, subject) <==> i in moved || (i == 0 && first)
      {
        if i > 0 {
          assert i in moved <==> i - 1 in rest;
        }
      }
      assert Already(rows, subject) == if first then {0} + moved else moved;
    }
  }

  lemma {:induction false} SameSize(a: set<nat>, b: set<nat>)
    requires b == set i | i in a :: i + 1
    ensures |b| == |a|
    decreases |a|
  {
    if a != {} {
      var x :| x in a;
      var rest := set i | i in a - {x} :: i + 1;
      forall y: nat
        ensures y in b - {x + 1} <==> y in rest
      {
        assert y > 0 ==> (y in b <==> y - 1 in a) && (y in rest <==> y - 1 in a - {x});
      }
      assert b - {x + 1} == rest;
      SameSize(a - {x}, rest);
    }
  }

  /** An old-style add: the row it appends, its reply, and the number of live rows of the subject it warns about. */
  lemma OldStyleAddIsExact(q: Queue, dispatch: Dispatch, runAt: Option<TimeText>, expireAfter: Option<nat>, env: Env)
    requires dispatch.legacyKey.Some?
    ensures var plan := PlanEnqueue(q, dispatch, runAt, expireAfter, env);
            var kept := Kept(q.entries, env.now);
            && |plan.queue.entries| == |kept| + 1 && plan.queue.entries[..|kept|] == kept
            && MadeFrom(plan.queue.entries[|kept|], env.entryId, dispatch, runAt, expireAfter)
            && plan.queue.counters == q.counters && plan.finished == SweepFinished(q, env.now)
            && plan.reply == Added(env.entryId, dispatch.legacyKey.value, |Already(kept, dispatch.legacyKey.value)|)
  {
    hide Kept, Swept, Duplicates, Already;
    DuplicatesCount(Kept(q.entries, env.now), dispatch.legacyKey.value);
  }

  /** The rows of two immediate adds stand last, behind what is left of the queue. */
  lemma AddedBoth(q: Queue, a: Dispatch, b: Dispatch, first: Env, second: Env, now: Instant)
    requires a.legacyKey.Some? && b.legacyKey.Some?
    ensures var once := PlanEnqueue(q, a, None, None, first).queue;
            var twice := PlanEnqueue(once, b, None, None, second).queue;
            Kept(twice.entries, now)
            == Kept(Kept(Kept(q.entries, first.now), second.now), now)
               + [AddedRow(first.entryId, a, None, None), AddedRow(second.entryId, b, None, None)]
  {
    hide Kept, Swept;
    var x, y := AddedRow(first.entryId, a, None, None), AddedRow(second.entryId, b, None, None);
    var once := Kept(q.entries, first.now) + [x];
    LastRow(once, second.now);
    assert once[..|once| - 1] == Kept(q.entries, first.now);
    var left := Kept(Kept(q.entries, first.now), second.now);
    var twice := left + [x] + [y];
    LastRow(twice, now);
    assert twice[..|twice| - 1] == left + [x];
    LastRow(left + [x], now);
    assert (left + [x])[..|left|] == left;
  }

  /**
   * Two immediate adds and then a hand-out with room: where no other open row has either subject, the first row is
   * given, and the second exactly if the two legacy keys, trimmed, are different texts.
   */
  lemma AddedSubjectsDecide(q: Queue, a: Dispatch, b: Dispatch, first: Env, second: Env, max: nat,
                            exclude: seq<string>, env: Env)
    requires a.legacyKey.Some? && b.legacyKey.Some? && Trim(a.legacyKey.value) != "" && Trim(b.legacyKey.value) != ""
    requires Trim(a.legacyKey.value) !in exclude && Trim(b.legacyKey.value) !in exclude
    requires forall e :: e in q.entries && Open(e, env.now) ==>
               SubjectIdRef(e) != Trim(a.legacyKey.value) && SubjectIdRef(e) != Trim(b.legacyKey.value)
    requires |q.entries| + 2 <= max
    ensures var once := PlanEnqueue(q, a, None, None, first).queue;
            var twice := PlanEnqueue(once, b, None, None, second).queue;
            var n := |Kept(Kept(Kept(q.entries, first.now), second.now), env.now)|;
            && n in Taken(twice, max, None, exclude, env.now)
            && (n + 1 in Taken(twice, max, None, exclude, env.now)
                <==> Trim(a.legacyKey.value) != Trim(b.legacyKey.value))
  {
    hide Kept, Taken, SubjectIdRef, Trim, PlanEnqueue;
    var once := PlanEnqueue(q, a, None, None, first).queue;
    var twice := PlanEnqueue(once, b, None, None, second).queue;
    AddedBoth(q, a, b, first, second, env.now);
    var left := Kept(Kept(Kept(q.entries, first.now), second.now), env.now);
    var kept := Kept(twice.entries, env.now);
    KeptFits(q.entries, first.now);
    KeptFits(Kept(q.entries, first.now), second.now);
    KeptFits(Kept(Kept(q.entries, first.now), second.now), env.now);
    forall k | 0 <= k < |left|
      ensures kept[k] in q.entries
    {
      assert kept[k] == left[k] && left[k] in left;
    }
    StoredSubjectsDecide(twice, max, None, exclude, env, |left|, |left| + 1);
  }

  lemma {:induction false} KeptFits(entries: seq<Entry>, now: Instant)
    ensures |Kept(entries, now)| <= |entries|
  {
    hide Kept;
    if entries == [] {
      NothingToSweep(now);
    } else {
      KeptFits(entries[..|entries| - 1], now);
      LastRow(entries, now);
    }
  }

  // ---------------------------------------------------------------------
  // Calls about one row
  // ---------------------------------------------------------------------

  /** The queue with the row at `i` replaced. */
  function With(q: Queue, i: nat, e: Entry): Queue
    requires i < |q.entries|
  {
    Queue(q.entries[i := e], q.counters)
  }

  /** The call found no row. */
  predicate Missing(q: Queue, id: string) {
    forall i :: 0 <= i < |q.entries| ==> q.entries[i].id != id
  }

  /** Only a waiting row is put on hold; a held one stays so; any other is refused. */
  lemma HoldIsExact(q: Queue, past: Option<Record>, id: string, env: Env)
    ensures var plan := Perform(q, past, Hold(id), env);
            if Missing(q, id) then plan == Unchanged(q, Changed(false, true))
            else
              var i := Position(q.entries, id).value;
              var e := q.entries[i];
              plan == if e.status == Pending then
                        Plan(With(q, i, e.(status := Held, heldAt := Some(env.now))), [], Changed(true, false))
                      else Unchanged(q, if e.status == Held then Changed(false, false) else NotPending)
  {
  }

  /** Only a held row is released. */
  lemma ReleaseIsExact(q: Queue, past: Option<Record>, id: string, env: Env)
    ensures var plan := Perform(q, past, Release(id), env);
            if Missing(q, id) then plan == Unchanged(q, Changed(false, true))
            else
              var i := Position(q.entries, id).value;
              var e := q.entries[i];
              plan == if e.status == Held then
                        Plan(With(q, i, e.(status := Pending, heldAt := None)), [], Changed(true, false))
                      else Unchanged(q, if e.status == Pending then Changed(false, false) else NotPending)
  {
  }

  /** Only a waiting old-style row is set running, under the caller's workflow id, or a fresh one if it sends none. */
  lemma MarkAssignedIsExact(q: Queue, past: Option<Record>, id: string, workflowId: Option<string>, env: Env)
    ensures var plan := Perform(q, past, MarkAssigned(id, workflowId), env);
            if Missing(q, id) then plan == Unchanged(q, Changed(false, true))
            else
              var i := Position(q.entries, id).value;
              var e := q.entries[i];
              var workflow := if workflowId.Some? then workflowId.value else env.entryId;
              plan == if e.subjectGen.Some? then Unchanged(q, Fenced)
                      else if e.status == Pending then
                        Plan(With(q, i, e.(status := Assigned, workflowId := Some(workflow), owner := Some(workflow),
                                           expiresAt := Some(env.now + env.ttlLimit * SECOND),
                                           assignedAt := Some(env.now))),
                             [], Changed(true, false))
                      else Unchanged(q, if e.status == Assigned then Changed(false, false) else NotPending)
  {
  }

  /** Only a running old-style row is put back; its workflow and lease are forgotten. */
  lemma ReleasePendingIsExact(q: Queue, past: Option<Record>, id: string, env: Env)
    ensures var plan := Perform(q, past, ReleasePending(id), env);
            if Missing(q, id) then plan == Unchanged(q, UnknownEntry)
            else
              var i := Position(q.entries, id).value;
              var e := q.entries[i];
              plan == if e.subjectGen.Some? then Unchanged(q, Fenced)
                      else if e.status == Assigned then
                        Plan(With(q, i, e.(status := Pending, assignedAt := None, workflowId := None, owner := None,
                                           expiresAt := None)),
                             [], PutBackToPending)
                      else Unchanged(q, NotAssignedButIn(e.status))
  {
  }

  /** Any row is dropped, and recorded without its dispatch. */
  lemma DropIsExact(q: Queue, past: Option<Record>, id: string, env: Env)
    ensures var plan := Perform(q, past, DropEntry(id), env);
            if Missing(q, id) then plan == Unchanged(q, Changed(false, true))
            else
              var i := Position(q.entries, id).value;
              plan == Plan(Queue(q.entries[..i] + q.entries[i + 1..], q.counters),
                           [Record(Dropped, env.now, "queue/drop", q.entries[i].(dispatch := None))],
                           Changed(true, false))
  {
  }
}
