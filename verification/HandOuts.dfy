/** The ticketed hand-out is greedy: what it gives, what it refuses and why, in queue order. */
module HandOuts {
  import opened Wrappers
  import opened Text
  import opened QueueState
  import opened QueueHistory
  import opened QueueService
  import opened FencedQueue
  import opened Machine
  import opened Effects
  import opened HandOutScan
  import opened Invariant

  /** The caller excludes a ticket with the row's number. */
  ghost predicate NumberExcluded(exclude: seq<Fence>, f: Entry) {
    && f.subject.Some? && f.subjectGen.Some?
    && exists x :: x in exclude && x.subject == Some(SubjectGeneration(f.subject.value, f.subjectGen.value))
  }

  /** The caller excludes a ticket that reserves the branch. */
  ghost predicate BranchExcluded(exclude: seq<Fence>, key: string) {
    exists x :: x in exclude && x.repository.Some? && x.repository.value.collisionKey == key
  }

  /** Another row than `f` runs on the branch. */
  ghost predicate BranchTaken(entries: seq<Entry>, f: Entry, key: string) {
    exists x :: x in entries && x.id != f.id && x.status == Assigned
                && x.repository.Some? && x.repository.value.collisionKey == key
  }

  /** Nothing in `exclude` or among the other running rows stands against row `f`. */
  ghost predicate Unopposed(f: Entry, exclude: seq<Fence>, entries: seq<Entry>) {
    && !NumberExcluded(exclude, f)
    && (f.repository.Some? ==>
          && !BranchExcluded(exclude, f.repository.value.collisionKey)
          && !BranchTaken(entries, f, f.repository.value.collisionKey))
  }

  /**
   * Why row `f` was refused, seen from the queue the scan leaves: the first reason there is, with the first ticket of
   * the caller that stands for it, or else the ticket of a row that runs on the branch.
   */
  ghost predicate Opposed(b: Block, e: Entry, f: Entry, exclude: seq<Fence>, entries: seq<Entry>) {
    match b.reason
    case MissingExecutionIdentity =>
      && f == e && b.conflict.None?
      && (e.dispatch.None? || (e.subjectGen.None? && e.dispatch.value.canonicalId.None?))
    case SubjectGenerationActive =>
      && f.subject.Some? && f.subjectGen.Some? && b.conflict.Some?
      && FirstOnSubject(exclude, b.conflict.value, SubjectGeneration(f.subject.value, f.subjectGen.value))
    case RepositoryRefCollision =>
      && f.subjectGen.Some? && !NumberExcluded(exclude, f) && f.repository.Some?
      && var key := f.repository.value.collisionKey;
         if BranchExcluded(exclude, key) then b.conflict.Some? && FirstOnBranch(exclude, b.conflict.value, key)
         else exists x :: && x in entries && x.id != f.id && x.status == Assigned
                          && x.repository.Some? && x.repository.value.collisionKey == key
                          && b.conflict == ExecutionFence(x)
  }

  /** A decision about candidate row `e`, which the scan left as `f`, is the right one. */
  ghost predicate Right(decision: Decision, req: LeaseRequest, env: Env, e: Entry, f: Entry, entries: seq<Entry>) {
    match decision
    case Gave(g) =>
      && g.entry == f && Some(g.fence) == ExecutionFence(f) && HandsOut(req, env, e, f) && Ticketed(f)
      && Unopposed(f, req.exclude, entries)
    case Refused(b) =>
      b.entryId == e.id && Names(e, f) && Opposed(b, e, f, req.exclude, entries)
  }

  /** Every decision is right. */
  ghost predicate AllRight(start: Scan, t: Scan, c: seq<nat>, decisions: seq<Decision>, req: LeaseRequest, env: Env)
    requires |start.queue.entries| == |t.queue.entries| && |decisions| <= |c|
    requires forall k :: 0 <= k < |c| ==> c[k] < |start.queue.entries|
  {
    forall k :: 0 <= k < |decisions| ==>
      Right(decisions[k], req, env, start.queue.entries[c[k]], t.queue.entries[c[k]], t.queue.entries)
  }

  /** A scan of a queue in good order. */
  ghost predicate Greedy(start: Scan, t: Scan, c: seq<nat>, n: nat, decisions: seq<Decision>, req: LeaseRequest,
                         env: Env)
    requires |start.queue.entries| == |t.queue.entries| && n <= |c|
    requires forall k :: 0 <= k < |c| ==> c[k] < |start.queue.entries|
  {
    && Frugal(start, t, c, n, decisions, req)
    && AllRight(start, t, c, decisions, req, env)
  }

  /** A hand-out that met no conflict succeeds. */
  lemma GiveIsRight(s: Scan, i: nat, req: LeaseRequest, env: Env, e: Entry)
    requires i < |s.queue.entries| && UniqueIds(s.queue.entries) && RowOk(s.queue.entries[i], s.queue.counters)
    requires Ticketed(s.queue.entries[i]) && Names(e, s.queue.entries[i]) && Due(e, env.now)
    requires ValidLease(req) && s.used < |req.workflowIds|
    requires var f := s.queue.entries[i];
             Conflict(s.queue.entries, i, SubjectGeneration(f.subject.value, f.subjectGen.value), req.exclude).None?
    ensures var t := HandOut(s, i, req, env.now, ExpiryOf(env));
            && |t.leased| == |s.leased| + 1
            && Right(Gave(t.leased[|s.leased|]), req, env, e, t.queue.entries[i], t.queue.entries)
  {
    hide Conflict, Unopposed;
    var t := HandOut(s, i, req, env.now, ExpiryOf(env));
    var f := t.queue.entries[i];
    assert Trim(req.workflowIds[s.used]) != "";
    assert Identify(e, f) == s.queue.entries[i];
    assert HandsOut(req, env, e, f);
    GivenIsUnopposed(s.queue.entries, i, f, req.exclude);
  }

  lemma GivenIsUnopposed(entries: seq<Entry>, i: nat, f: Entry, exclude: seq<Fence>)
    requires i < |entries| && UniqueIds(entries) && Ticketed(entries[i]) && entries[i].subject.Some?
    requires f.id == entries[i].id && f.subject == entries[i].subject && f.subjectGen == entries[i].subjectGen
    requires f.repository == entries[i].repository
    requires Conflict(entries, i, SubjectGeneration(f.subject.value, f.subjectGen.value), exclude).None?
    ensures Unopposed(f, exclude, entries[i := f])
  {
    forall x | x in entries[i := f] && x.id != f.id
      ensures x in entries
    {
    }
  }

  lemma ConflictIsRight(entries: seq<Entry>, i: nat, exclude: seq<Fence>, e: Entry)
    requires i < |entries| && UniqueIds(entries)
    requires Ticketed(entries[i]) && entries[i].subject.Some? && entries[i].status == Pending
    requires Names(e, entries[i])
    ensures var f := entries[i];
            var conflict := Conflict(entries, i, SubjectGeneration(f.subject.value, f.subjectGen.value), exclude);
            conflict.Some? ==> conflict.value.entryId == e.id && Opposed(conflict.value, e, f, exclude, entries)
  {
    var f := entries[i];
    if f.repository.Some? {
      var running := RunningOnBranch(entries, f.repository.value.collisionKey);
      if running.Some? {
        assert entries[running.value] in entries && entries[running.value].id != f.id;
      }
    }
  }

  /** One turn from a queue in good order. */
  lemma TurnIsRight(s: Scan, i: nat, req: LeaseRequest, env: Env, log: seq<Record>)
    requires Inv(Disk(s.queue, log)) && i < |s.queue.entries| && Due(s.queue.entries[i], env.now)
    requires ValidLease(req) && s.used < |req.workflowIds|
    ensures var t := Visit(s, i, req, env.now, ExpiryOf(env));
            Right(Decide(s, i, req, env.now, ExpiryOf(env)), req, env, s.queue.entries[i], t.queue.entries[i],
                  t.queue.entries)
  {
    hide Inv, HandOut, Conflict, Opposed, HandsOut, Unopposed, NextGeneration;
    var e := s.queue.entries[i];
    InvRow(Disk(s.queue, log), i);
    if e.dispatch.Some? && EnsureIdentity(s.queue, i).Some? {
      IdentityNames(s.queue, i);
      IdentityKeeps(Disk(s.queue, log), i);
      var identity := EnsureIdentity(s.queue, i).value;
      var named := s.(queue := identity.queue, changed := s.changed || !Ticketed(e));
      InvRow(Disk(named.queue, log), i);
      InvUndamaged(Disk(named.queue, log));
      ConflictIsRight(named.queue.entries, i, req.exclude, e);
      if Conflict(named.queue.entries, i, identity.subject, req.exclude).None? {
        GiveIsRight(named, i, req, env, e);
      }
    } else {
      MissingIsRight(e, req.exclude, s.queue.entries);
      assert s.queue.entries[i := e] == s.queue.entries;
    }
  }

  lemma MissingIsRight(e: Entry, exclude: seq<Fence>, entries: seq<Entry>)
    requires e.dispatch.None? || (!Ticketed(e) && e.dispatch.value.canonicalId.None?)
    ensures Opposed(Block(e.id, MissingExecutionIdentity, None), e, e, exclude, entries)
  {
  }

  /** A later turn leaves earlier decisions right: running rows keep running. */
  lemma StaysRight(decision: Decision, req: LeaseRequest, env: Env, e: Entry, f: Entry,
                   before: seq<Entry>, after: seq<Entry>)
    requires Right(decision, req, env, e, f, before)
    requires forall x :: x in before && x.status == Assigned ==> x in after
    requires f in after && forall x :: x in after && x.id != f.id ==> !Clash(f, x)
    ensures Right(decision, req, env, e, f, after)
  {
    if decision.Refused? && decision.block.reason == RepositoryRefCollision {
      var b, key := decision.block, f.repository.value.collisionKey;
      if !BranchExcluded(req.exclude, key) {
        var x :| && x in before && x.id != f.id && x.status == Assigned
                 && x.repository.Some? && x.repository.value.collisionKey == key && b.conflict == ExecutionFence(x);
        assert x in after;
      }
    }
  }

  lemma RightStep(start: Scan, s: Scan, t: Scan, c: seq<nat>, n: nat, decisions: seq<Decision>, decision: Decision,
                  req: LeaseRequest, env: Env)
    requires |start.queue.entries| == |s.queue.entries| == |t.queue.entries| && 0 < n <= |c| && |decisions| == n - 1
    requires forall k :: 0 <= k < |c| ==> c[k] < |start.queue.entries|
    requires forall k, l :: 0 <= k < l < |c| ==> c[k] < c[l]
    requires AllRight(start, s, c, decisions, req, env)
    requires s.queue.entries[c[n - 1]] == start.queue.entries[c[n - 1]] && s.queue.entries[c[n - 1]].status == Pending
    requires Turned(s, t, c[n - 1], decision, req)
    requires Right(decision, req, env, s.queue.entries[c[n - 1]], t.queue.entries[c[n - 1]], t.queue.entries)
    requires forall a, b :: a in t.queue.entries && b in t.queue.entries && a.id != b.id ==> !Clash(a, b)
    ensures AllRight(start, t, c, decisions + [decision], req, env)
  {
    hide Right, Clash, HandsOut;
    var i := c[n - 1];
    var all := decisions + [decision];
    forall x | x in s.queue.entries && x.status == Assigned
      ensures x in t.queue.entries
    {
      var j :| 0 <= j < |s.queue.entries| && s.queue.entries[j] == x;
      assert t.queue.entries[j] == x;
    }
    forall k | 0 <= k < |all|
      ensures Right(all[k], req, env, start.queue.entries[c[k]], t.queue.entries[c[k]], t.queue.entries)
    {
      if k < n - 1 {
        assert c[k] < i;
        assert t.queue.entries[c[k]] in t.queue.entries;
        StaysRight(decisions[k], req, env, start.queue.entries[c[k]], t.queue.entries[c[k]],
                   s.queue.entries, t.queue.entries);
      }
    }
  }

  lemma {:induction false} ScanIsRight(start: Scan, c: seq<nat>, n: nat, req: LeaseRequest, env: Env, log: seq<Record>)
    requires n <= |c| && ValidLease(req)
    requires forall k :: 0 <= k < |c| ==> c[k] < |start.queue.entries| && Due(start.queue.entries[c[k]], env.now)
    requires forall k, l :: 0 <= k < l < |c| ==> c[k] < c[l]
    requires Inv(Disk(start.queue, log))
    requires start.used == 0 && start.leased == [] && start.blocked == [] && !start.outOfIds
    ensures var decisions := Decisions(start, c, n, req, env.now, ExpiryOf(env));
            && |decisions| <= n
            && AllRight(start, ScanAfter(start, c, n, req, env.now, ExpiryOf(env)), c, decisions, req, env)
  {
    hide Inv, Visit, Decide, Turned, Clash, Frugal, AllRight, ScanAfter, Decisions;
    if n == 0 {
      NoneRight(start, c, req, env);
    } else {
      ScanTurns(start, c, n - 1, req, env.now, ExpiryOf(env));
      ScanIsRight(start, c, n - 1, req, env, log);
      ScanIsFrugal(start, c, n - 1, req, env.now, ExpiryOf(env));
      var s := ScanAfter(start, c, n - 1, req, env.now, ExpiryOf(env));
      var decisions := Decisions(start, c, n - 1, req, env.now, ExpiryOf(env));
      FrugalFacts(start, s, c, n - 1, decisions, req);
      if |s.leased| < req.max {
        var i := c[n - 1];
        ScanKeeps(start, c, n - 1, req, env, log);
        AnyTurn(s, i, req, env.now, ExpiryOf(env));
        TurnIsRight(s, i, req, env, log);
        VisitKeeps(s, i, req, env.now, ExpiryOf(env), log);
        var t := Visit(s, i, req, env.now, ExpiryOf(env));
        NoClash(Disk(t.queue, log));
        RightStep(start, s, t, c, n, decisions, Decide(s, i, req, env.now, ExpiryOf(env)), req, env);
      }
    }
  }

  lemma NoneRight(start: Scan, c: seq<nat>, req: LeaseRequest, env: Env)
    requires forall k :: 0 <= k < |c| ==> c[k] < |start.queue.entries|
    ensures Decisions(start, c, 0, req, env.now, ExpiryOf(env)) == []
    ensures ScanAfter(start, c, 0, req, env.now, ExpiryOf(env)) == start
    ensures AllRight(start, start, c, [], req, env)
  {
  }

  lemma NoClash(d: Disk)
    requires Inv(d)
    ensures forall a, b :: a in d.live.entries && b in d.live.entries && a.id != b.id ==> !Clash(a, b)
  {
  }

  // ---------------------------------------------------------------------
  // The call
  // ---------------------------------------------------------------------

  /** A scan that reports no change left the queue as it was. */
  lemma {:induction false} UnchangedScan(start: Scan, c: seq<nat>, n: nat, req: LeaseRequest,
                                         now: Instant, expires: Instant)
    requires n <= |c|
    requires forall k :: 0 <= k < |c| ==> c[k] < |start.queue.entries|
    requires forall e :: e in start.queue.entries && Ticketed(e) ==> e.subject.Some?
    ensures var t := ScanAfter(start, c, n, req, now, expires);
            (start.changed ==> t.changed) && (!t.changed ==> t.queue == start.queue)
  {
    hide ScanAfter, Decisions, Decide, Visit;
    if n == 0 {
      ScanStarts(start, c, req, now, expires);
    } else {
      ScanTurns(start, c, n - 1, req, now, expires);
      UnchangedScan(start, c, n - 1, req, now, expires);
      assert start.queue.entries[c[n - 1]] in start.queue.entries;
      UnchangedTurn(ScanAfter(start, c, n - 1, req, now, expires), c[n - 1], req, now, expires);
    }
  }

  lemma UnchangedTurn(s: Scan, i: nat, req: LeaseRequest, now: Instant, expires: Instant)
    requires i < |s.queue.entries| && (!s.changed && Ticketed(s.queue.entries[i]) ==> s.queue.entries[i].subject.Some?)
    ensures var t := Visit(s, i, req, now, expires);
            (s.changed ==> t.changed) && (!t.changed ==> t.queue == s.queue)
  {
    hide Conflict, ExecutionFence, NextGeneration, HandedOut;
  }

  /** What a valid hand-out saves is what its scan left, whether or not it had to save. */
  lemma LeaseV2Saves(d: Disk, req: LeaseRequest, env: Env)
    requires Inv(d) && ValidLease(req)
    ensures var finished := SweepFinished(d.live, env.now);
            var scan := FullScan(SweepQueue(d.live, env.now), finished, req, env.now, ExpiryOf(env));
            PlanLeaseV2(d.live, req, env) == Plan(scan.queue, finished, Granted(scan.leased, scan.blocked))
  {
    hide Inv, ScanAfter;
    InvUndamaged(d);
    var swept := SweepQueue(d.live, env.now);
    var c := Candidates(swept.entries, 0, CandidateCap(req.max), env.now);
    UnchangedScan(ScanStart(swept, SweepFinished(d.live, env.now)), c, |c|, req, env.now, ExpiryOf(env));
    if SweepFinished(d.live, env.now) == [] {
      NothingSwept(d.live.entries, env.now);
    }
  }

  /**
   * `queue/v2/lease` on any queue in good order: the first candidates are decided in queue order, each given or
   * refused for a reason that stands, until the batch is full or the candidates end; nothing else changes.
   */
  lemma LeaseV2IsGreedy(d: Disk, req: LeaseRequest, env: Env)
    requires Inv(d) && ValidLease(req)
    ensures var swept := SweepQueue(d.live, env.now);
            var start := ScanStart(swept, SweepFinished(d.live, env.now));
            var c := Candidates(swept.entries, 0, CandidateCap(req.max), env.now);
            Greedy(start, FullScan(swept, SweepFinished(d.live, env.now), req, env.now, ExpiryOf(env)), c, |c|,
                   Decisions(start, c, |c|, req, env.now, ExpiryOf(env)), req, env)
  {
    hide Inv, Frugal, AllRight, ScanAfter;
    SweepKeeps(d, env.now);
    var swept := SweepQueue(d.live, env.now);
    var c := Candidates(swept.entries, 0, CandidateCap(req.max), env.now);
    ScanIsFrugal(ScanStart(swept, SweepFinished(d.live, env.now)), c, |c|, req, env.now, ExpiryOf(env));
    ScanIsRight(ScanStart(swept, SweepFinished(d.live, env.now)), c, |c|, req, env, SweptDisk(d, env.now).log);
  }

  lemma GrantDecision(decisions: seq<Decision>, g: Grant) returns (k: nat)
    requires g in GrantsOf(decisions)
    ensures k < |decisions| && decisions[k] == Gave(g)
  {
    var n := |decisions| - 1;
    if decisions[n] == Gave(g) {
      k := n;
    } else {
      k := GrantDecision(decisions[..n], g);
    }
  }

  /** Every ticket a hand-out replies belongs to a waiting row that the saved queue now holds as given. */
  lemma GrantIsRow(d: Disk, req: LeaseRequest, env: Env, g: Grant) returns (e: Entry)
    requires Inv(d) && PlanLeaseV2(d.live, req, env).reply.Granted? && g in PlanLeaseV2(d.live, req, env).reply.leased
    ensures ValidLease(req)
    ensures e in d.live.entries && HandsOut(req, env, e, g.entry) && Some(g.fence) == ExecutionFence(g.entry)
    ensures e in Kept(d.live.entries, env.now)
    ensures g.entry in PlanLeaseV2(d.live, req, env).queue.entries
  {
    hide Inv, HandsOut, ScanAfter, Unopposed;
    LeaseV2Saves(d, req, env);
    LeaseV2IsGreedy(d, req, env);
    var swept := SweepQueue(d.live, env.now);
    var start := ScanStart(swept, SweepFinished(d.live, env.now));
    var c := Candidates(swept.entries, 0, CandidateCap(req.max), env.now);
    var k := GrantDecision(Decisions(start, c, |c|, req, env.now, ExpiryOf(env)), g);
    e := swept.entries[c[k]];
    assert e in swept.entries;
  }
}
