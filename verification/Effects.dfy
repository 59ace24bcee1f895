/** What each call does to each row: who may change it, how, and who may take it out of the queue. */
module Effects {
  import opened Wrappers
  import opened Text
  import opened QueueState
  import opened QueueHistory
  import opened QueueService
  import opened FencedQueue
  import opened Machine

  // ---------------------------------------------------------------------
  // The sweep, and edits that keep every row in place
  // ---------------------------------------------------------------------

  predicate Sweeps(call: Call) {
    call.EnqueueV2? || call.LeaseV2? || call.Enqueue? || call.Lease? || call.NextDeadline?
  }

  ghost predicate SameIds(before: seq<Entry>, after: seq<Entry>) {
    |before| == |after| && forall i :: 0 <= i < |before| ==> before[i].id == after[i].id
  }

  lemma UniqueAppend(entries: seq<Entry>, e: Entry)
    requires UniqueIds(entries) && e.id !in Ids(entries)
    ensures UniqueIds(entries + [e])
  {
    assert forall i :: 0 <= i < |entries| ==> entries[i] in entries;
  }

  lemma SweepSplits(entries: seq<Entry>, now: Instant)
    requires UniqueIds(entries)
    ensures UniqueIds(Kept(entries, now)) && UniqueIds(Swept(entries, now))
  {
    if entries != [] {
      var n := |entries| - 1;
      SweepSplits(entries[..n], now);
      assert entries[n].id !in Ids(entries[..n]);
      if Expired(entries[n], now) {
        UniqueAppend(Swept(entries[..n], now), entries[n]);
      } else {
        UniqueAppend(Kept(entries[..n], now), entries[n]);
      }
    }
  }

  /** Each record of a sweep comes from the one swept row with its id. */
  lemma SweepRecordOf(entries: seq<Entry>, now: Instant, r: Record) returns (e: Entry)
    requires r in SweepRecords(Swept(entries, now), now)
    ensures e in entries && Expired(e, now) && r == SweepRecord(e, now)
  {
    var swept := Swept(entries, now);
    var i :| 0 <= i < |swept| && SweepRecords(swept, now)[i] == r;
    assert swept[i] in swept;
    e := swept[i];
  }

  /** No two rows of a queue with unique ids share an id. */
  lemma ById(entries: seq<Entry>, e: Entry, f: Entry)
    requires UniqueIds(entries) && e in entries && f in entries && e.id == f.id
    ensures e == f
  {
  }

  lemma PositionOf(entries: seq<Entry>, e: Entry)
    requires UniqueIds(entries) && e in entries
    ensures var p := Position(entries, e.id); p.Some? && entries[p.value] == e
  {
  }

  // ---------------------------------------------------------------------
  // Rows that leave the queue
  // ---------------------------------------------------------------------

  /** The only ways a row can finish. */
  ghost predicate MayFinish(call: Call, env: Env, reply: Reply, e: Entry, r: Record) {
    && r.entry == Snapshot(e)
    && (|| (Sweeps(call) && Expired(e, env.now) && r.outcome == Dropped)
        || (call == DropEntry(e.id) && reply == Changed(true, false) && r.outcome == Dropped)
        || (&& call.Completion? && call.id == e.id && e.status == Assigned && reply == Changed(true, false)
            && Some(r.outcome) == OutcomeOf(call.status))
        || (&& call.Ticket? && call.op.Complete? && e.status == Assigned && ExactFenceMatches(e, call.fence)
            && reply == Mutation(Applied, ExecutionFence(e)) && Some(r.outcome) == OutcomeOf(call.op.status)))
  }

  lemma FinishKeepsId(call: Call, env: Env, reply: Reply, e: Entry, r: Record)
    requires MayFinish(call, env, reply, e, r)
    ensures r.entry == Snapshot(e)
  {
  }

  /** A plan moves rows from the queue to the log: none is lost, doubled or invented. */
  ghost predicate Flows(q: Queue, call: Call, env: Env, plan: Plan) {
    && UniqueIds(plan.queue.entries)
    && (forall i, j :: 0 <= i < j < |plan.finished| ==> plan.finished[i].entry.id != plan.finished[j].entry.id)
    && (forall r :: r in plan.finished ==> exists e :: e in q.entries && MayFinish(call, env, plan.reply, e, r))
    && (forall e, r :: e in plan.queue.entries && r in plan.finished ==> e.id != r.entry.id)
    && (forall e :: e in q.entries ==> e.id in Ids(plan.queue.entries) + LogIds(plan.finished))
    && (forall e :: e in plan.queue.entries ==> e.id in Ids(q.entries) || e.id == env.entryId)
  }

  lemma SweepFlows(q: Queue, call: Call, env: Env, reply: Reply)
    requires UniqueIds(q.entries) && Sweeps(call)
    ensures Flows(q, call, env, Plan(SweepQueue(q, env.now), SweepFinished(q, env.now), reply))
  {
    SweepSplits(q.entries, env.now);
    var finished := SweepFinished(q, env.now);
    forall r | r in finished
      ensures exists e :: e in q.entries && MayFinish(call, env, reply, e, r)
    {
      var e := SweepRecordOf(q.entries, env.now, r);
      assert MayFinish(call, env, reply, e, r);
    }
    forall e | e in q.entries
      ensures e.id in Ids(Kept(q.entries, env.now)) + LogIds(finished)
    {
      SweptOrKept(q.entries, env.now, e);
    }
    forall e, r | e in Kept(q.entries, env.now) && r in finished
      ensures e.id != r.entry.id
    {
      var f := SweepRecordOf(q.entries, env.now, r);
      if e.id == f.id {
        ById(q.entries, e, f);
      }
    }
  }

  lemma SweptOrKept(entries: seq<Entry>, now: Instant, e: Entry)
    requires e in entries
    ensures if Expired(e, now) then SweepRecord(e, now) in SweepRecords(Swept(entries, now), now)
            else e in Kept(entries, now)
  {
    if Expired(e, now) {
      var swept := Swept(entries, now);
      var i :| 0 <= i < |swept| && swept[i] == e;
      assert SweepRecords(swept, now)[i] == SweepRecord(e, now);
    }
  }

  /** Editing rows in place, or adding the fresh row, keeps the flow. */
  lemma InPlaceFlows(q: Queue, call: Call, env: Env, plan: Plan, after: Queue)
    requires Flows(q, call, env, plan)
    requires SameIds(plan.queue.entries, after.entries)
    ensures Flows(q, call, env, plan.(queue := after))
  {
    assert forall e :: e in after.entries ==> exists f :: f in plan.queue.entries && f.id == e.id;
    forall e | e in q.entries
      ensures e.id in Ids(after.entries) + LogIds(plan.finished)
    {
      if e.id in Ids(plan.queue.entries) {
        var i :| 0 <= i < |plan.queue.entries| && plan.queue.entries[i].id == e.id;
        assert after.entries[i] in after.entries;
      }
    }
  }

  lemma AppendFlows(q: Queue, call: Call, env: Env, plan: Plan, after: Queue, e: Entry)
    requires Flows(q, call, env, plan)
    requires after.entries == plan.queue.entries + [e]
    requires e.id == env.entryId && env.entryId !in Ids(q.entries)
    requires forall f :: f in plan.queue.entries ==> f.id in Ids(q.entries)
    ensures Flows(q, call, env, plan.(queue := after))
  {
    hide MayFinish;
    assert forall f :: f in plan.queue.entries ==> f in after.entries;
    forall r | r in plan.finished
      ensures r.entry.id in Ids(q.entries)
    {
      var x :| x in q.entries && MayFinish(call, env, plan.reply, x, r);
      FinishKeepsId(call, env, plan.reply, x, r);
    }
  }

  lemma FinishFlows(q: Queue, call: Call, env: Env, i: nat, r: Record, reply: Reply)
    requires UniqueIds(q.entries) && i < |q.entries|
    requires MayFinish(call, env, reply, q.entries[i], r)
    ensures Flows(q, call, env, Plan(WithoutRow(q, i), [r], reply))
  {
    var rest := Removed(q.entries, i);
    forall k, l | 0 <= k < l < |rest|
      ensures rest[k].id != rest[l].id
    {
    }
    forall e | e in q.entries
      ensures e.id in Ids(rest) + LogIds([r])
    {
      var k :| 0 <= k < |q.entries| && q.entries[k] == e;
      if k == i {
        assert r in [r];
      } else {
        assert rest[if k < i then k else k - 1] == e;
      }
    }
  }

  // ---------------------------------------------------------------------
  // Rows that stay
  // ---------------------------------------------------------------------

  /** `e` with the ticket identity of `f`. */
  function Identify(e: Entry, f: Entry): Entry {
    e.(subject := f.subject, subjectGen := f.subjectGen)
  }

  /** `named` is `e`, or old-style `e` with the identity of its dispatch. */
  ghost predicate Names(e: Entry, named: Entry) {
    && named == Identify(e, named)
    && (Ticketed(e) ==> named == e)
    && (!Ticketed(e) && named != e ==>
          && e.dispatch.Some? && named.subjectGen.Some? && named.subject.Some?
          && named.subject == e.dispatch.value.canonicalId)
  }

  function ExpiryOf(env: Env): Instant {
    env.now + env.ttlLimit * SECOND
  }

  function OpExpiry(op: TicketOp, env: Env): Instant
    requires op.Renew? || op.Recover?
  {
    env.now + RequestedTtl(op.ttl, env.ttlLimit) * SECOND
  }

  /** A hand-out turned the waiting row `e` into `f`. */
  ghost predicate HandsOut(req: LeaseRequest, env: Env, e: Entry, f: Entry) {
    && Due(e, env.now) && Names(e, Identify(e, f)) && f.workflowId.Some?
    && f == HandedOut(Identify(e, f), f.workflowId.value, Trim(req.owner), env.now, ExpiryOf(env))
    && (NonEmpty(e.workflowId).Some? ==> f.workflowId == e.workflowId)
    && ExecutionFence(f).Some?
  }

  /** What a hand-out that replies `leased` may do to the waiting row `e`. */
  ghost predicate LeaseChange(req: LeaseRequest, env: Env, leased: seq<Grant>, e: Entry, f: Entry) {
    && Due(e, env.now)
    && (Names(e, f) || (HandsOut(req, env, e, f) && Grant(f, ExecutionFence(f).value) in leased))
  }

  /** The only ways a row can change. */
  ghost predicate MayChange(call: Call, env: Env, reply: Reply, e: Entry, f: Entry) {
    match call
    case EnqueueV2(add) =>
      && reply.Receipt? && !reply.enqueued && reply.entryId == e.id
      && (e.status == Assigned ==> Ticketed(e))
      && Names(e, Identify(e, f)) && Ticketed(f)
      && f == Bound(Identify(e, f), TrimmedKey(add), add.hash)
    case LeaseV2(req) =>
      reply.Granted? && LeaseChange(req, env, reply.leased, e, f)
    case Ticket(fence, op) =>
      && e.status == Assigned && ExactFenceMatches(e, fence)
      && (|| (&& op.Renew? && LeaseIsLive(e, env.now)
              && f == Renewed(e, OpExpiry(op, env)) && reply == Mutation(Applied, ExecutionFence(f)))
          || (&& op.Recover? && !LeaseIsLive(e, env.now)
              && Trim(op.newOwner) != "" && e.owner != Some(Trim(op.newOwner))
              && f == TakenOver(e, Trim(op.newOwner), OpExpiry(op, env))
              && reply == Mutation(Applied, ExecutionFence(f)))
          || (op.PutBack? && f == PutBackTicketed(e) && reply == Mutation(Applied, None)))
    case Lease(max, workflowIds, exclude) =>
      && Eligible(e, env.now) && f.workflowId.Some?
      && f == OldStyleAssigned(e, f.workflowId.value, env.now, ExpiryOf(env))
      && (NonEmpty(e.workflowId).Some? ==> f.workflowId == e.workflowId)
      && reply.Leased? && f in reply.entries
    case Hold(id) => id == e.id && e.status == Pending && f == e.(status := Held, heldAt := Some(env.now))
    case Release(id) => id == e.id && e.status == Held && f == e.(status := Pending, heldAt := None)
    case MarkAssigned(id, _) =>
      && id == e.id && e.status == Pending && !Ticketed(e) && f.workflowId.Some?
      && f == OldStyleAssigned(e, f.workflowId.value, env.now, ExpiryOf(env))
    case ReleasePending(id) => id == e.id && e.status == Assigned && !Ticketed(e) && f == PutBackOldStyle(e)
    case _ => false
  }

  ghost predicate RowChange(call: Call, env: Env, reply: Reply, e: Entry, f: Entry) {
    f == e || MayChange(call, env, reply, e, f)
  }

  /** The only row that can appear. */
  ghost predicate MayAppear(call: Call, env: Env, reply: Reply, f: Entry) {
    && f.id == env.entryId
    && (|| (&& call.EnqueueV2? && Acceptable(call.add) && reply.Receipt? && reply.enqueued && reply.entryId == f.id
            && reply.subject.generation > 0
            && f == NewEntry(f.id, call.add, reply.subject.generation)
            && call.add.dispatch.canonicalId == Some(reply.subject.qualifiedId))
        || (&& call.Enqueue? && call.dispatch.legacyKey.Some?
            && var readable := call.runAt.Some? && call.runAt.value.instant.Some?;
               f == FromDispatch(f.id, call.dispatch, if readable then call.runAt else None, call.expireAfter)))
  }

  /** Everything a plan does to the rows of `q`. */
  ghost predicate RowsMove(q: Queue, call: Call, env: Env, plan: Plan) {
    && Flows(q, call, env, plan)
    && (forall e, f :: e in q.entries && f in plan.queue.entries && e.id == f.id ==>
          RowChange(call, env, plan.reply, e, f))
    && (forall f :: f in plan.queue.entries && f.id !in Ids(q.entries) ==> MayAppear(call, env, plan.reply, f))
  }

  /** Rows come in one piece: an identified row has its subject. */
  ghost predicate Undamaged(q: Queue) {
    && UniqueIds(q.entries)
    && forall e :: e in q.entries && Ticketed(e) ==> e.subject.Some?
  }

  lemma UnchangedMoves(q: Queue, call: Call, env: Env, reply: Reply)
    requires Undamaged(q)
    ensures RowsMove(q, call, env, Unchanged(q, reply))
  {
    forall e, f | e in q.entries && f in q.entries && e.id == f.id
      ensures e == f
    {
      ById(q.entries, e, f);
    }
  }

  /** Rows changed in place after the sweep (`mid` is the queue between the two). */
  lemma InPlaceMoves(q: Queue, call: Call, env: Env, mid: Plan, after: Queue)
    requires Undamaged(q)
    requires Flows(q, call, env, mid)
    requires forall e :: e in mid.queue.entries ==> e in q.entries
    requires SameIds(mid.queue.entries, after.entries)
    requires forall i :: 0 <= i < |after.entries| ==>
               RowChange(call, env, mid.reply, mid.queue.entries[i], after.entries[i])
    ensures RowsMove(q, call, env, mid.(queue := after))
  {
    hide RowChange, MayFinish, MayAppear;
    InPlaceFlows(q, call, env, mid, after);
    forall e, f | e in q.entries && f in after.entries && e.id == f.id
      ensures RowChange(call, env, mid.reply, e, f)
    {
      var i :| 0 <= i < |after.entries| && after.entries[i] == f;
      ById(q.entries, e, mid.queue.entries[i]);
    }
    forall f | f in after.entries
      ensures f.id in Ids(q.entries)
    {
      var i :| 0 <= i < |after.entries| && after.entries[i] == f;
      assert mid.queue.entries[i] in q.entries;
    }
  }

  /** A call that sweeps and then changes rows in place. */
  lemma SweptMoves(q: Queue, call: Call, env: Env, reply: Reply, after: Queue)
    requires Undamaged(q) && Sweeps(call)
    requires SameIds(Kept(q.entries, env.now), after.entries)
    requires forall i :: 0 <= i < |after.entries| ==>
               RowChange(call, env, reply, Kept(q.entries, env.now)[i], after.entries[i])
    ensures RowsMove(q, call, env, Plan(after, SweepFinished(q, env.now), reply))
  {
    SweepFlows(q, call, env, reply);
    InPlaceMoves(q, call, env, Plan(SweepQueue(q, env.now), SweepFinished(q, env.now), reply), after);
  }

  /** A call that sweeps and then adds the fresh row. */
  lemma SweptAppendMoves(q: Queue, call: Call, env: Env, reply: Reply, after: Queue, e: Entry)
    requires Undamaged(q) && Sweeps(call)
    requires after.entries == Kept(q.entries, env.now) + [e]
    requires env.entryId !in Ids(q.entries) && MayAppear(call, env, reply, e)
    ensures RowsMove(q, call, env, Plan(after, SweepFinished(q, env.now), reply))
  {
    SweepFlows(q, call, env, reply);
    AppendMoves(q, call, env, Plan(SweepQueue(q, env.now), SweepFinished(q, env.now), reply), after, e);
  }

  lemma AppendMoves(q: Queue, call: Call, env: Env, mid: Plan, after: Queue, e: Entry)
    requires Undamaged(q)
    requires Flows(q, call, env, mid)
    requires forall f :: f in mid.queue.entries ==> f in q.entries
    requires after.entries == mid.queue.entries + [e]
    requires env.entryId !in Ids(q.entries) && MayAppear(call, env, mid.reply, e)
    ensures RowsMove(q, call, env, mid.(queue := after))
  {
    AppendFlows(q, call, env, mid, after, e);
    forall x, f | x in q.entries && f in after.entries && x.id == f.id
      ensures x == f
    {
      if f != e {
        ById(q.entries, x, f);
      }
    }
  }

  lemma FinishMoves(q: Queue, call: Call, env: Env, i: nat, r: Record, reply: Reply)
    requires Undamaged(q) && i < |q.entries|
    requires MayFinish(call, env, reply, q.entries[i], r)
    ensures RowsMove(q, call, env, Plan(WithoutRow(q, i), [r], reply))
  {
    FinishFlows(q, call, env, i, r, reply);
    forall e, f | e in q.entries && f in Removed(q.entries, i) && e.id == f.id
      ensures e == f
    {
      ById(q.entries, e, f);
    }
  }

  /** A change to one row of an unswept queue. */
  lemma RowMoves(q: Queue, call: Call, env: Env, i: nat, f: Entry, reply: Reply)
    requires Undamaged(q) && i < |q.entries|
    requires f.id == q.entries[i].id && RowChange(call, env, reply, q.entries[i], f)
    ensures RowsMove(q, call, env, Plan(WithRow(q, i, f), [], reply))
  {
    UnchangedMoves(q, call, env, reply);
    InPlaceMoves(q, call, env, Unchanged(q, reply), WithRow(q, i, f));
  }

  // ---------------------------------------------------------------------
  // The two hand-out scans
  // ---------------------------------------------------------------------

  lemma IdentityNames(q: Queue, i: nat)
    requires i < |q.entries| && (Ticketed(q.entries[i]) ==> q.entries[i].subject.Some?)
    requires EnsureIdentity(q, i).Some?
    ensures var r := EnsureIdentity(q, i).value;
            && Names(q.entries[i], r.queue.entries[i])
            && r.queue.entries == q.entries[i := r.queue.entries[i]]
            && r.queue.entries[i].subject == Some(r.subject.qualifiedId)
            && r.queue.entries[i].subjectGen == Some(r.subject.generation)
  {
  }

  lemma HandOutRow(s: Scan, i: nat, req: LeaseRequest, env: Env, e: Entry)
    requires i < |s.queue.entries| && Due(e, env.now) && Names(e, s.queue.entries[i])
    ensures var t := HandOut(s, i, req, env.now, ExpiryOf(env));
            && t.queue.entries == s.queue.entries[i := t.queue.entries[i]]
            && s.leased <= t.leased
            && LeaseChange(req, env, t.leased, e, t.queue.entries[i])
  {
    var t := HandOut(s, i, req, env.now, ExpiryOf(env));
    var f := t.queue.entries[i];
    if f != s.queue.entries[i] {
      assert Identify(e, f) == s.queue.entries[i];
      assert HandsOut(req, env, e, f);
    }
  }

  /** One turn changes only the row it visits, and only as a hand-out may. */
  lemma VisitRow(s: Scan, i: nat, req: LeaseRequest, env: Env)
    requires i < |s.queue.entries| && Due(s.queue.entries[i], env.now)
    requires Ticketed(s.queue.entries[i]) ==> s.queue.entries[i].subject.Some?
    ensures var t := Visit(s, i, req, env.now, ExpiryOf(env));
            && t.queue.entries == s.queue.entries[i := t.queue.entries[i]]
            && s.leased <= t.leased
            && LeaseChange(req, env, t.leased, s.queue.entries[i], t.queue.entries[i])
  {
    var e := s.queue.entries[i];
    if e.dispatch.Some? && EnsureIdentity(s.queue, i).Some? {
      IdentityNames(s.queue, i);
      var identity := EnsureIdentity(s.queue, i).value;
      var named := s.(queue := identity.queue, changed := s.changed || !Ticketed(e));
      if Conflict(named.queue.entries, i, identity.subject, req.exclude).None? {
        HandOutRow(named, i, req, env, e);
      }
    } else {
      assert s.queue.entries == s.queue.entries[i := e];
    }
  }

  /** After `n` turns only the visited rows changed, each as a hand-out may. */
  ghost predicate Scanned(req: LeaseRequest, env: Env, before: seq<Entry>, after: seq<Entry>, leased: seq<Grant>,
                          visited: seq<nat>) {
    && |before| == |after|
    && (forall i :: 0 <= i < |before| && i !in visited ==> after[i] == before[i])
    && (forall i :: 0 <= i < |before| ==> after[i] == before[i] || LeaseChange(req, env, leased, before[i], after[i]))
  }

  lemma LeaseChangeGrows(req: LeaseRequest, env: Env, leased: seq<Grant>, more: seq<Grant>, e: Entry, f: Entry)
    requires LeaseChange(req, env, leased, e, f) && leased <= more
    ensures LeaseChange(req, env, more, e, f)
  {
  }

  lemma {:induction false} ScanRows(start: Scan, c: seq<nat>, n: nat, req: LeaseRequest, env: Env)
    requires n <= |c|
    requires forall k :: 0 <= k < |c| ==> c[k] < |start.queue.entries| && Due(start.queue.entries[c[k]], env.now)
    requires forall k, l :: 0 <= k < l < |c| ==> c[k] < c[l]
    requires forall e :: e in start.queue.entries && Ticketed(e) ==> e.subject.Some?
    ensures var t := ScanAfter(start, c, n, req, env.now, ExpiryOf(env));
            Scanned(req, env, start.queue.entries, t.queue.entries, t.leased, c[..n])
  {
    hide LeaseChange, Visit;
    if n > 0 {
      ScanRows(start, c, n - 1, req, env);
      var before := ScanAfter(start, c, n - 1, req, env.now, ExpiryOf(env));
      var t := ScanAfter(start, c, n, req, env.now, ExpiryOf(env));
      var i := c[n - 1];
      assert i !in c[..n - 1];
      assert c[..n] == c[..n - 1] + [i];
      assert start.queue.entries[i] in start.queue.entries;
      if !(req.max <= |before.leased| || before.outOfIds) {
        VisitRow(before, i, req, env);
        forall j | 0 <= j < |t.queue.entries|
                   && LeaseChange(req, env, before.leased, start.queue.entries[j], before.queue.entries[j])
          ensures LeaseChange(req, env, t.leased, start.queue.entries[j], before.queue.entries[j])
        {
          LeaseChangeGrows(req, env, before.leased, t.leased, start.queue.entries[j], before.queue.entries[j]);
        }
      }
    }
  }

  lemma LeaseV2Moves(q: Queue, req: LeaseRequest, env: Env)
    requires Undamaged(q)
    ensures RowsMove(q, LeaseV2(req), env, PlanLeaseV2(q, req, env))
  {
    hide FullScan, MayChange, Flows;
    var plan := PlanLeaseV2(q, req, env);
    if plan == Unchanged(q, plan.reply) {
      UnchangedMoves(q, LeaseV2(req), env, plan.reply);
    } else {
      FullScanRows(SweepQueue(q, env.now), SweepFinished(q, env.now), req, env);
      SweptMoves(q, LeaseV2(req), env, plan.reply, plan.queue);
    }
  }

  lemma FullScanRows(q: Queue, finished: seq<Record>, req: LeaseRequest, env: Env)
    requires forall e :: e in q.entries && Ticketed(e) ==> e.subject.Some?
    ensures var scan := FullScan(q, finished, req, env.now, ExpiryOf(env));
            && SameIds(q.entries, scan.queue.entries)
            && forall i :: 0 <= i < |q.entries| ==>
                 RowChange(LeaseV2(req), env, Granted(scan.leased, scan.blocked), q.entries[i], scan.queue.entries[i])
  {
    hide ScanAfter, LeaseChange, Due;
    var c := Candidates(q.entries, 0, CandidateCap(req.max), env.now);
    ScanRows(ScanStart(q, finished), c, |c|, req, env);
    var scan := FullScan(q, finished, req, env.now, ExpiryOf(env));
    forall i | 0 <= i < |q.entries|
      ensures scan.queue.entries[i].id == q.entries[i].id
    {
      if scan.queue.entries[i] != q.entries[i] {
        HandOutKeepsId(req, env, scan.leased, q.entries[i], scan.queue.entries[i]);
      }
    }
  }

  lemma HandOutKeepsId(req: LeaseRequest, env: Env, leased: seq<Grant>, e: Entry, f: Entry)
    requires LeaseChange(req, env, leased, e, f)
    ensures f.id == e.id
  {
  }

  lemma SlotsStart(entries: seq<Entry>, chosen: seq<nat>, workflowIds: Option<seq<string>>, env: Env)
    requires |chosen| <= |env.workflowIds|
    requires workflowIds.Some? ==> |chosen| <= |workflowIds.value|
    requires forall k :: 0 <= k < |chosen| ==> chosen[k] < |entries|
    ensures AssignSlots(entries, chosen, 0, workflowIds, env.workflowIds, env.now, ExpiryOf(env)) == entries
  {
  }

  lemma SlotsStep(entries: seq<Entry>, chosen: seq<nat>, n: nat, workflowIds: Option<seq<string>>, env: Env)
    requires n < |chosen| <= |env.workflowIds|
    requires workflowIds.Some? ==> |chosen| <= |workflowIds.value|
    requires forall k :: 0 <= k < |chosen| ==> chosen[k] < |entries|
    ensures var expires := ExpiryOf(env);
            var before := AssignSlots(entries, chosen, n, workflowIds, env.workflowIds, env.now, expires);
            var e := before[chosen[n]];
            AssignSlots(entries, chosen, n + 1, workflowIds, env.workflowIds, env.now, expires)
            == (var given := OldStyleAssigned(e, SlotWorkflow(e, n, workflowIds, env.workflowIds), env.now, expires);
                before[chosen[n] := given])
  {
  }

  lemma {:induction false} SlotRows(entries: seq<Entry>, chosen: seq<nat>, n: nat, workflowIds: Option<seq<string>>,
                                    env: Env)
    requires n <= |chosen| <= |env.workflowIds|
    requires workflowIds.Some? ==> |chosen| <= |workflowIds.value|
    requires forall k :: 0 <= k < |chosen| ==> chosen[k] < |entries|
    requires forall k, l :: 0 <= k < l < |chosen| ==> chosen[k] < chosen[l]
    ensures var after := AssignSlots(entries, chosen, n, workflowIds, env.workflowIds, env.now, ExpiryOf(env));
            && (forall i :: 0 <= i < |entries| && i !in chosen[..n] ==> after[i] == entries[i])
            && (forall k :: 0 <= k < n ==>
                  var e := entries[chosen[k]];
                  after[chosen[k]] == OldStyleAssigned(e, SlotWorkflow(e, k, workflowIds, env.workflowIds),
                                                       env.now, ExpiryOf(env)))
  {
    hide OldStyleAssigned, SlotWorkflow, AssignSlots;
    if n == 0 {
      SlotsStart(entries, chosen, workflowIds, env);
    } else {
      SlotRows(entries, chosen, n - 1, workflowIds, env);
      SlotsStep(entries, chosen, n - 1, workflowIds, env);
      var before := AssignSlots(entries, chosen, n - 1, workflowIds, env.workflowIds, env.now, ExpiryOf(env));
      var i := chosen[n - 1];
      assert i !in chosen[..n - 1];
      assert before[i] == entries[i];
      assert chosen[..n] == chosen[..n - 1] + [i];
    }
  }

  lemma ChooseRows(entries: seq<Entry>, i: nat, exclude: set<string>, room: nat, now: Instant)
    ensures var chosen := Choose(entries, i, exclude, room, now);
            && (forall k :: 0 <= k < |chosen| ==> i <= chosen[k] < |entries| && Eligible(entries[chosen[k]], now))
            && (forall k, l :: 0 <= k < l < |chosen| ==> chosen[k] < chosen[l])
    decreases |entries| - i
  {
    ChooseBounds(entries, i, exclude, room, now);
  }

  /** The rows an old-style hand-out leaves, over a swept queue. */
  lemma LeaseRows(entries: seq<Entry>, call: Call, env: Env)
    requires call.Lease? && call.max <= |env.workflowIds|
    requires call.workflowIds.Some? ==> |call.workflowIds.value| == call.max
    ensures var chosen := Choose(entries, 0, Subjects(call.exclude), call.max, env.now);
            && |chosen| <= call.max
            && (forall k :: 0 <= k < |chosen| ==> chosen[k] < |entries|)
            && var after := AssignSlots(entries, chosen, |chosen|, call.workflowIds, env.workflowIds, env.now,
                                        ExpiryOf(env));
               && SameIds(entries, after)
               && forall i :: 0 <= i < |entries| ==>
                    RowChange(call, env, Leased(Pick(after, chosen)), entries[i], after[i])
  {
    hide Choose, AssignSlots;
    var chosen := Choose(entries, 0, Subjects(call.exclude), call.max, env.now);
    ChooseBounds(entries, 0, Subjects(call.exclude), call.max, env.now);
    ChooseRows(entries, 0, Subjects(call.exclude), call.max, env.now);
    SlotRows(entries, chosen, |chosen|, call.workflowIds, env);
    var after := AssignSlots(entries, chosen, |chosen|, call.workflowIds, env.workflowIds, env.now, ExpiryOf(env));
    forall i | 0 <= i < |entries|
      ensures RowChange(call, env, Leased(Pick(after, chosen)), entries[i], after[i])
    {
      if i in chosen[..|chosen|] {
        var k :| 0 <= k < |chosen| && chosen[k] == i;
        assert Pick(after, chosen)[k] == after[i];
      }
    }
  }

  lemma LeaseMoves(q: Queue, call: Call, env: Env)
    requires Undamaged(q) && call.Lease? && call.max <= |env.workflowIds|
    ensures RowsMove(q, call, env, PlanLease(q, call.max, call.workflowIds, call.exclude, env))
  {
    hide RowsMove, RowChange, Choose, AssignSlots, Kept, Swept, SweepRecords;
    var plan := PlanLease(q, call.max, call.workflowIds, call.exclude, env);
    if plan == Unchanged(q, plan.reply) {
      UnchangedMoves(q, call, env, plan.reply);
    } else {
      LeaseRows(Kept(q.entries, env.now), call, env);
      SweptMoves(q, call, env, plan.reply, plan.queue);
    }
  }

  // ---------------------------------------------------------------------
  // The other calls
  // ---------------------------------------------------------------------

  lemma NewAddMoves(q: Queue, add: AddRequest, env: Env)
    requires Undamaged(q) && env.entryId !in Ids(q.entries) && Acceptable(add)
    ensures RowsMove(q, EnqueueV2(add), env, PlanNewAdd(q, SweepQueue(q, env.now), SweepFinished(q, env.now), add, env))
  {
    hide Flows, LiveMax, HighestTicketed, FirstWaiting;
    var call := EnqueueV2(add);
    var swept := SweepQueue(q, env.now);
    var plan := PlanNewAdd(q, swept, SweepFinished(q, env.now), add, env);
    var live := LiveEntryForSubject(swept.entries, add.dispatch.canonicalId.value);
    if live.None? {
      SweptAppendMoves(q, call, env, plan.reply, plan.queue, plan.queue.entries[|swept.entries|]);
    } else if EnsureIdentity(swept, live.value).None? {
      UnchangedMoves(q, call, env, plan.reply);
    } else {
      assert swept.entries[live.value] in q.entries;
      IdentityNames(swept, live.value);
      var e, f := swept.entries[live.value], plan.queue.entries[live.value];
      assert Identify(e, f) == EnsureIdentity(swept, live.value).value.queue.entries[live.value];
      assert MayChange(call, env, plan.reply, e, f);
      SweptMoves(q, call, env, plan.reply, plan.queue);
    }
  }

  lemma EnqueueV2Moves(q: Queue, past: Option<Record>, add: AddRequest, env: Env)
    requires Undamaged(q) && env.entryId !in Ids(q.entries)
    ensures RowsMove(q, EnqueueV2(add), env, PlanEnqueueV2(q, past, add, env))
  {
    var plan := PlanEnqueueV2(q, past, add, env);
    if plan == Unchanged(q, plan.reply) {
      UnchangedMoves(q, EnqueueV2(add), env, plan.reply);
    } else if Holder(SweepQueue(q, env.now), SweepFinished(q, env.now), past, TrimmedKey(add)).Some? {
      SweptMoves(q, EnqueueV2(add), env, plan.reply, SweepQueue(q, env.now));
    } else {
      NewAddMoves(q, add, env);
    }
  }

  lemma EnqueueMoves(q: Queue, call: Call, env: Env)
    requires Undamaged(q) && env.entryId !in Ids(q.entries) && call.Enqueue?
    ensures RowsMove(q, call, env, PlanEnqueue(q, call.dispatch, call.runAt, call.expireAfter, env))
  {
    var plan := PlanEnqueue(q, call.dispatch, call.runAt, call.expireAfter, env);
    if call.dispatch.legacyKey.None? {
      UnchangedMoves(q, call, env, plan.reply);
    } else {
      SweptAppendMoves(q, call, env, plan.reply, plan.queue, plan.queue.entries[|plan.queue.entries| - 1]);
    }
  }

  lemma TicketMoves(q: Queue, past: Option<Record>, fence: Fence, op: TicketOp, env: Env)
    requires Undamaged(q)
    ensures RowsMove(q, Ticket(fence, op), env, PlanTicket(q, past, fence, op, env))
  {
    hide RowsMove, MayFinish, MayChange, PlanOnRow, Position;
    var plan := PlanTicket(q, past, fence, op, env);
    if plan == Unchanged(q, plan.reply) {
      UnchangedMoves(q, Ticket(fence, op), env, plan.reply);
    } else {
      var p := Position(q.entries, fence.lease.value.entryId);
      TicketIsAllowed(q, p.value, fence, op, env);
      SingleMoves(q, Ticket(fence, op), env, plan, p);
    }
  }

  lemma TicketIsAllowed(q: Queue, i: nat, fence: Fence, op: TicketOp, env: Env)
    requires i < |q.entries| && ValidTicket(fence, op) && q.entries[i].id == fence.lease.value.entryId
    ensures var plan := PlanOnRow(q, i, fence, op, env);
            || plan == Unchanged(q, plan.reply)
            || (&& |plan.finished| == 1 && plan.queue == WithoutRow(q, i)
                && MayFinish(Ticket(fence, op), env, plan.reply, q.entries[i], plan.finished[0]))
            || (&& plan.finished == [] && |plan.queue.entries| == |q.entries|
                && plan.queue == WithRow(q, i, plan.queue.entries[i])
                && plan.queue.entries[i].id == q.entries[i].id
                && RowChange(Ticket(fence, op), env, plan.reply, q.entries[i], plan.queue.entries[i]))
  {
    hide LeaseIsLive, ExactFenceMatches, ExecutionFence;
  }

  /** Rows that only change places. */
  lemma ShuffleMoves(q: Queue, call: Call, env: Env, after: seq<Entry>, reply: Reply)
    requires Undamaged(q) && UniqueIds(after)
    requires forall e :: e in after <==> e in q.entries
    ensures RowsMove(q, call, env, Plan(q.(entries := after), [], reply))
  {
    hide RowChange, MayAppear, MayFinish;
    forall e, f | e in q.entries && f in after && e.id == f.id
      ensures RowChange(call, env, reply, e, f)
    {
      ById(q.entries, e, f);
      SameRow(call, env, reply, e);
    }
  }

  lemma SameRow(call: Call, env: Env, reply: Reply, e: Entry)
    ensures RowChange(call, env, reply, e, e)
  {
  }

  lemma ReorderMoves(q: Queue, ids: seq<string>, env: Env)
    requires Undamaged(q)
    ensures RowsMove(q, Reorder(ids), env, PlanReorder(q, ids))
  {
    hide RowsMove, NewOrder, Moved;
    var plan := PlanReorder(q, ids);
    if plan == Unchanged(q, plan.reply) {
      UnchangedMoves(q, Reorder(ids), env, plan.reply);
    } else {
      OrderBounds(q.entries, ids);
      OrderDistinct(q.entries, ids);
      PickShuffles(q.entries, NewOrder(q.entries, ids));
      ShuffleMoves(q, Reorder(ids), env, plan.queue.entries, plan.reply);
    }
  }

  /** An order that names every position once gives a permutation of the rows. */
  lemma PickShuffles(entries: seq<Entry>, order: seq<nat>)
    requires UniqueIds(entries) && |order| == |entries|
    requires forall k :: 0 <= k < |order| ==> order[k] < |entries|
    requires forall p: nat :: p in order <==> p < |entries|
    requires forall k, l :: 0 <= k < l < |order| ==> order[k] != order[l]
    ensures UniqueIds(Pick(entries, order))
    ensures forall e :: e in Pick(entries, order) <==> e in entries
  {
    var after := Pick(entries, order);
    forall e | e in entries
      ensures e in after
    {
      var p :| 0 <= p < |entries| && entries[p] == e;
      assert p as nat in order;
      var k :| 0 <= k < |order| && order[k] == p;
      assert after[k] == e;
    }
  }

  lemma {:induction false} PerformMoves(q: Queue, past: Option<Record>, call: Call, env: Env)
    requires Undamaged(q) && Supplied(call, env) && env.entryId !in Ids(q.entries)
    ensures RowsMove(q, call, env, Perform(q, past, call, env))
  {
    hide RowsMove, MayChange;
    hide PlanEnqueueV2, PlanLeaseV2, PlanTicket, PlanEnqueue, PlanLease, PlanReorder, PlanRow, PlanFinish;
    var plan := Perform(q, past, call, env);
    match call
    case EnqueueV2(add) => EnqueueV2Moves(q, past, add, env);
    case LeaseV2(lease) => LeaseV2Moves(q, lease, env);
    case Ticket(fence, op) => TicketMoves(q, past, fence, op, env);
    case Enqueue(_, _, _) => EnqueueMoves(q, call, env);
    case Lease(_, _, _) => LeaseMoves(q, call, env);
    case Reorder(ids) => ReorderMoves(q, ids, env);
    case NextDeadline =>
      if plan.finished == [] {
        UnchangedMoves(q, call, env, plan.reply);
      } else {
        SweptMoves(q, call, env, plan.reply, plan.queue);
      }
    case DropEntry(_) => FinishCallMoves(q, past, call, env);
    case Completion(_, _, _, _) => FinishCallMoves(q, past, call, env);
    case _ => EditCallMoves(q, past, call, env);
  }

  lemma FinishCallMoves(q: Queue, past: Option<Record>, call: Call, env: Env)
    requires Undamaged(q) && (call.DropEntry? || call.Completion?)
    ensures RowsMove(q, call, env, Perform(q, past, call, env))
  {
    hide RowsMove, Position, CompletionTarget;
    var plan := Perform(q, past, call, env);
    if call.Completion? {
      SingleMoves(q, call, env, plan, CompletionTarget(q.entries, call.id, call.workflowRef, call.doneBy));
    } else {
      SingleMoves(q, call, env, plan, Position(q.entries, call.id));
    }
  }

  lemma EditCallMoves(q: Queue, past: Option<Record>, call: Call, env: Env)
    requires Undamaged(q) && (call.Hold? || call.Release? || call.MarkAssigned? || call.ReleasePending?)
    ensures RowsMove(q, call, env, Perform(q, past, call, env))
  {
    hide RowsMove, Position, MayFinish, MayChange;
    var p := Position(q.entries, call.id);
    if p.Some? {
      EditIsAllowed(q, past, call, env, p.value);
    }
    SingleMoves(q, call, env, Perform(q, past, call, env), p);
  }

  lemma EditIsAllowed(q: Queue, past: Option<Record>, call: Call, env: Env, i: nat)
    requires call.Hold? || call.Release? || call.MarkAssigned? || call.ReleasePending?
    requires Position(q.entries, call.id) == Some(i)
    ensures var plan := Perform(q, past, call, env);
            || plan == Unchanged(q, plan.reply)
            || (&& plan.finished == [] && |plan.queue.entries| == |q.entries|
                && plan.queue == WithRow(q, i, plan.queue.entries[i])
                && plan.queue.entries[i].id == q.entries[i].id
                && RowChange(call, env, plan.reply, q.entries[i], plan.queue.entries[i]))
  {
    hide Position;
  }

  /** A plan that touches at most the row at `p`. */
  lemma SingleMoves(q: Queue, call: Call, env: Env, plan: Plan, p: Option<nat>)
    requires Undamaged(q)
    requires p.Some? ==> p.value < |q.entries|
    requires || plan == Unchanged(q, plan.reply)
             || (&& p.Some? && |plan.finished| == 1 && plan.queue == WithoutRow(q, p.value)
                 && MayFinish(call, env, plan.reply, q.entries[p.value], plan.finished[0]))
             || (&& p.Some? && plan.finished == [] && |plan.queue.entries| == |q.entries|
                 && plan.queue == WithRow(q, p.value, plan.queue.entries[p.value])
                 && plan.queue.entries[p.value].id == q.entries[p.value].id
                 && RowChange(call, env, plan.reply, q.entries[p.value], plan.queue.entries[p.value]))
    ensures RowsMove(q, call, env, plan)
  {
    if plan == Unchanged(q, plan.reply) {
      UnchangedMoves(q, call, env, plan.reply);
    } else if plan.finished == [] {
      RowMoves(q, call, env, p.value, plan.queue.entries[p.value], plan.reply);
    } else {
      FinishMoves(q, call, env, p.value, plan.finished[0], plan.reply);
      assert plan == Plan(WithoutRow(q, p.value), [plan.finished[0]], plan.reply);
    }
  }
}
