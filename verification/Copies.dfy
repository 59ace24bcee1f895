/** Copies of one subject under the ticketed hand-out: when two of them run together, and when none do. */
module Copies {
  import opened Wrappers
  import opened Text
  import opened QueueState
  import opened QueueService
  import opened FencedQueue
  import opened Machine
  import opened Effects
  import opened HandOutScan
  import opened Invariant
  import opened HandOuts

  // ---------------------------------------------------------------------
  // Copies of one subject
  // ---------------------------------------------------------------------

  /** The swept queue the hand-out scans, the rows it looks at, what it decides about them, and what it leaves. */
  ghost function SweptRows(d: Disk, env: Env): seq<Entry> {
    SweepQueue(d.live, env.now).entries
  }

  ghost function LookedAt(d: Disk, req: LeaseRequest, env: Env): (c: seq<nat>)
    ensures forall k :: 0 <= k < |c| ==> c[k] < |SweptRows(d, env)| && Due(SweptRows(d, env)[c[k]], env.now)
    ensures forall k, l :: 0 <= k < l < |c| ==> c[k] < c[l]
  {
    Candidates(SweptRows(d, env), 0, CandidateCap(req.max), env.now)
  }

  ghost function Decided(d: Disk, req: LeaseRequest, env: Env): (decisions: seq<Decision>)
    ensures |decisions| <= |LookedAt(d, req, env)|
  {
    var start := ScanStart(SweepQueue(d.live, env.now), SweepFinished(d.live, env.now));
    Decisions(start, LookedAt(d, req, env), |LookedAt(d, req, env)|, req, env.now, ExpiryOf(env))
  }

  ghost function RowsAfter(d: Disk, req: LeaseRequest, env: Env): (rows: seq<Entry>)
    ensures |rows| == |SweptRows(d, env)|
  {
    FullScan(SweepQueue(d.live, env.now), SweepFinished(d.live, env.now), req, env.now, ExpiryOf(env)).queue.entries
  }

  /** What is known of each decision, once and for all. */
  lemma DecidedRight(d: Disk, req: LeaseRequest, env: Env)
    requires Inv(d) && ValidLease(req)
    ensures RowsAfter(d, req, env) == PlanLeaseV2(d.live, req, env).queue.entries
    ensures |Decided(d, req, env)| == |LookedAt(d, req, env)| || req.max <= |Decided(d, req, env)|
    ensures PlanLeaseV2(d.live, req, env).reply
            == Granted(GrantsOf(Decided(d, req, env)), BlocksOf(Decided(d, req, env)))
    ensures forall k :: 0 <= k < |Decided(d, req, env)| ==>
              var i := LookedAt(d, req, env)[k];
              Right(Decided(d, req, env)[k], req, env, SweptRows(d, env)[i], RowsAfter(d, req, env)[i],
                    RowsAfter(d, req, env))
    ensures forall i :: 0 <= i < |SweptRows(d, env)| && i !in LookedAt(d, req, env)[..|Decided(d, req, env)|] ==>
              RowsAfter(d, req, env)[i] == SweptRows(d, env)[i]
  {
    hide Inv, ValidLease, Right, PlanLeaseV2, ScanAfter, Decisions, Candidates;
    LeaseV2Saves(d, req, env);
    LeaseV2IsGreedy(d, req, env);
    GrantsAreDecisions(Decided(d, req, env));
  }

  lemma {:induction false} GrantsAreDecisions(decisions: seq<Decision>)
    ensures |GrantsOf(decisions)| + |BlocksOf(decisions)| == |decisions|
  {
    if decisions != [] {
      GrantsAreDecisions(decisions[..|decisions| - 1]);
    }
  }

  lemma {:induction false} GaveIsGranted(decisions: seq<Decision>, k: nat)
    requires k < |decisions| && decisions[k].Gave?
    ensures decisions[k].grant in GrantsOf(decisions)
  {
    var n := |decisions| - 1;
    if k < n {
      GaveIsGranted(decisions[..n], k);
    }
  }

  /** A row that is looked at and can be identified is given exactly if nothing stands against it. */
  lemma GivenUnlessOpposed(d: Disk, req: LeaseRequest, env: Env, k: nat)
    requires Inv(d) && ValidLease(req) && k < |Decided(d, req, env)|
    requires var e := SweptRows(d, env)[LookedAt(d, req, env)[k]];
             e.dispatch.Some? && (e.subjectGen.Some? || e.dispatch.value.canonicalId.Some?)
    ensures var f := RowsAfter(d, req, env)[LookedAt(d, req, env)[k]];
            && (Decided(d, req, env)[k].Gave? <==> Unopposed(f, req.exclude, RowsAfter(d, req, env)))
            && PlanLeaseV2(d.live, req, env).reply.Granted?
            && (Decided(d, req, env)[k].Gave? ==>
                  && Decided(d, req, env)[k].grant in PlanLeaseV2(d.live, req, env).reply.leased
                  && Decided(d, req, env)[k].grant.entry == f)
  {
    hide Inv, ValidLease, Right, PlanLeaseV2, SweptRows, LookedAt, Decided, RowsAfter, Unopposed;
    var i := LookedAt(d, req, env)[k];
    DecidedRight(d, req, env);
    RightUnlessOpposed(Decided(d, req, env)[k], req, env, SweptRows(d, env)[i], RowsAfter(d, req, env)[i],
                       RowsAfter(d, req, env));
    if Decided(d, req, env)[k].Gave? {
      GaveIsGranted(Decided(d, req, env), k);
    }
  }

  lemma RightUnlessOpposed(decision: Decision, req: LeaseRequest, env: Env, e: Entry, f: Entry, entries: seq<Entry>)
    requires Right(decision, req, env, e, f, entries)
    requires e.dispatch.Some? && (e.subjectGen.Some? || e.dispatch.value.canonicalId.Some?)
    ensures decision.Gave? <==> Unopposed(f, req.exclude, entries)
    ensures decision.Gave? ==> decision.grant.entry == f
  {
    if decision.Refused? && decision.block.reason == SubjectGenerationActive {
      assert decision.block.conflict.value in req.exclude;
    }
  }

  /** The rows looked at are the first fifty that wait and are due, in queue order. */
  lemma LooksAtFifty(d: Disk, req: LeaseRequest, env: Env, i: nat)
    requires ValidLease(req) && i < |SweptRows(d, env)|
    ensures |LookedAt(d, req, env)| <= 50
    ensures var e := SweptRows(d, env)[i];
            && e.status == Pending
            && (e.runAt.Some? && e.runAt.value.instant.Some? ==> e.runAt.value.instant.value <= env.now)
            ==> i in LookedAt(d, req, env)
                || (|LookedAt(d, req, env)| == 50 && forall k :: 0 <= k < 50 ==> LookedAt(d, req, env)[k] < i)
    ensures i in LookedAt(d, req, env) ==>
              var e := SweptRows(d, env)[i];
              && e.status == Pending
              && (e.runAt.Some? && e.runAt.value.instant.Some? ==> e.runAt.value.instant.value <= env.now)
  {
    hide SweptRows;
  }

  /** A hand-out request is refused exactly if it asks for none or more than five, or its owner or ids will not do. */
  lemma HandOutIsRefused(d: Disk, req: LeaseRequest, env: Env)
    ensures PlanLeaseV2(d.live, req, env).reply == InvalidParams <==>
              || req.max < 1 || 5 < req.max || Trim(req.owner) == "" || |req.workflowIds| != req.max
              || (exists k :: 0 <= k < |req.workflowIds| && Trim(req.workflowIds[k]) == "")
              || (exists k, l :: 0 <= k < l < |req.workflowIds| && req.workflowIds[k] == req.workflowIds[l])
    ensures PlanLeaseV2(d.live, req, env).reply == InvalidParams ==>
              PlanLeaseV2(d.live, req, env) == Unchanged(d.live, InvalidParams)
  {
    hide FullScan, Trim;
  }

  /** An old-style row whose subject can be identified. */
  predicate Nameable(e: Entry) {
    !Ticketed(e) && e.dispatch.Some? && e.dispatch.value.canonicalId.Some?
  }

  /** What the hand-out makes of an old-style row: it names it, and gives it unless its number is excluded. */
  lemma NameableDecision(decision: Decision, req: LeaseRequest, env: Env, e: Entry, f: Entry, entries: seq<Entry>)
    requires Right(decision, req, env, e, f, entries) && Nameable(e) && e.repository.None? && Due(e, env.now)
    ensures Ticketed(f) && f.subject == e.dispatch.value.canonicalId
    ensures decision.Gave? <==> !NumberExcluded(req.exclude, f)
    ensures decision.Gave? <==> f.status == Assigned
    ensures decision.Gave? ==> decision.grant.entry == f && Some(decision.grant.fence) == ExecutionFence(f)
  {
  }

  /**
   * Any old-style candidate whose subject can be identified and that is looked at runs afterwards exactly if the
   * caller excludes no ticket with the number it just got: another row of the subject, running or not, is no reason.
   */
  lemma CopyIsGiven(d: Disk, req: LeaseRequest, env: Env, k: nat)
    requires Inv(d) && ValidLease(req) && k < |Decided(d, req, env)|
    requires Nameable(SweptRows(d, env)[LookedAt(d, req, env)[k]])
    ensures RowsAfter(d, req, env) == PlanLeaseV2(d.live, req, env).queue.entries
    ensures PlanLeaseV2(d.live, req, env).reply.Granted?
    ensures var e, f := SweptRows(d, env)[LookedAt(d, req, env)[k]], RowsAfter(d, req, env)[LookedAt(d, req, env)[k]];
            && Ticketed(f) && f.subject == e.dispatch.value.canonicalId
            && (f.status == Assigned <==> !NumberExcluded(req.exclude, f))
            && (f.status == Assigned <==> Decided(d, req, env)[k].Gave?)
            && (f.status == Assigned ==>
                  && ExecutionFence(f).Some?
                  && Grant(f, ExecutionFence(f).value) in PlanLeaseV2(d.live, req, env).reply.leased)
  {
    hide Inv, ValidLease, Right, PlanLeaseV2, SweptRows, LookedAt, Decided, RowsAfter, NumberExcluded;
    var i := LookedAt(d, req, env)[k];
    var decision, e, f := Decided(d, req, env)[k], SweptRows(d, env)[i], RowsAfter(d, req, env)[i];
    DecidedRight(d, req, env);
    SweptRow(d, env, i);
    NameableDecision(decision, req, env, e, f, RowsAfter(d, req, env));
    if decision.Gave? {
      GaveIsGranted(Decided(d, req, env), k);
      assert decision.grant == Grant(f, ExecutionFence(f).value);
    }
  }

  /** An old-style row holds no reservation. */
  lemma SweptRow(d: Disk, env: Env, i: nat)
    requires Inv(d) && i < |SweptRows(d, env)|
    ensures SweptRows(d, env)[i] in d.live.entries
    ensures !Ticketed(SweptRows(d, env)[i]) ==> SweptRows(d, env)[i].repository.None?
  {
    assert SweptRows(d, env)[i] in SweptRows(d, env);
  }

  /**
   * Two old-style copies of one subject among the rows looked at, anywhere in any queue in good order, get different
   * numbers, and both run afterwards exactly if the caller excludes neither: so always, if it excludes no ticket of
   * the subject.
   */
  lemma CopiesGetTickets(d: Disk, req: LeaseRequest, env: Env, k: nat, l: nat)
    requires Inv(d) && ValidLease(req) && k < l < |Decided(d, req, env)|
    requires Nameable(SweptRows(d, env)[LookedAt(d, req, env)[k]])
    requires Nameable(SweptRows(d, env)[LookedAt(d, req, env)[l]])
    requires SweptRows(d, env)[LookedAt(d, req, env)[k]].dispatch.value.canonicalId
             == SweptRows(d, env)[LookedAt(d, req, env)[l]].dispatch.value.canonicalId
    ensures RowsAfter(d, req, env) == PlanLeaseV2(d.live, req, env).queue.entries
    ensures var subject := SweptRows(d, env)[LookedAt(d, req, env)[k]].dispatch.value.canonicalId;
            var f := RowsAfter(d, req, env)[LookedAt(d, req, env)[k]];
            var g := RowsAfter(d, req, env)[LookedAt(d, req, env)[l]];
            && f.id != g.id && Ticketed(f) && Ticketed(g) && f.subject == g.subject == subject
            && f.subjectGen != g.subjectGen
            && (f.status == Assigned && g.status == Assigned
                <==> !NumberExcluded(req.exclude, f) && !NumberExcluded(req.exclude, g))
            && ((forall x :: x in req.exclude && x.subject.Some? ==> Some(x.subject.value.qualifiedId) != subject)
                ==> f.status == Assigned && g.status == Assigned)
  {
    hide Inv, ValidLease, SweptRows, LookedAt, Decided, PlanLeaseV2;
    CopyIsGiven(d, req, env, k);
    CopyIsGiven(d, req, env, l);
    LeaseV2Keeps(d, req, env);
    NumbersDiffer(Commit(d, PlanLeaseV2(d.live, req, env)), LookedAt(d, req, env)[k], LookedAt(d, req, env)[l]);
  }

  lemma NumbersDiffer(d: Disk, i: nat, j: nat)
    requires Inv(d) && i < j < |d.live.entries|
    ensures d.live.entries[i].id != d.live.entries[j].id && !SameNumber(d.live.entries[i], d.live.entries[j])
  {
    hide RowOk, Coherent, Clash;
    assert Separate(d.live.entries[i], d.live.entries[j]);
  }

  // ---------------------------------------------------------------------
  // When a hand-out keeps every subject to one running row
  // ---------------------------------------------------------------------

  /** The canonical subject of a row, if it has one. */
  function SubjectOf(e: Entry): Option<string> {
    if Ticketed(e) then e.subject
    else if e.dispatch.Some? then e.dispatch.value.canonicalId
    else None
  }

  predicate IsRunning(e: Entry) {
    e.status == Assigned && SubjectOf(e).Some?
  }

  /** No subject runs twice. */
  ghost predicate OneEach(entries: seq<Entry>) {
    forall i, j :: 0 <= i < j < |entries| && IsRunning(entries[i]) && IsRunning(entries[j]) ==>
      SubjectOf(entries[i]) != SubjectOf(entries[j])
  }

  /** The hand-out gives row `i`. */
  ghost predicate Gives(d: Disk, req: LeaseRequest, env: Env, i: nat) {
    exists k :: 0 <= k < |Decided(d, req, env)| && k < |LookedAt(d, req, env)| && LookedAt(d, req, env)[k] == i
                && Decided(d, req, env)[k].Gave?
  }

  /** Row by row: the subject stays, and a row runs afterwards if it ran or was given. */
  lemma SubjectStays(d: Disk, req: LeaseRequest, env: Env, i: nat)
    requires Inv(d) && ValidLease(req) && i < |SweptRows(d, env)|
    ensures SubjectOf(RowsAfter(d, req, env)[i]) == SubjectOf(SweptRows(d, env)[i])
    ensures IsRunning(RowsAfter(d, req, env)[i]) <==> IsRunning(SweptRows(d, env)[i]) || Gives(d, req, env, i)
    ensures Gives(d, req, env, i) ==> !IsRunning(SweptRows(d, env)[i])
  {
    hide Inv, ValidLease, Right, PlanLeaseV2, SweptRows, LookedAt, Decided, RowsAfter;
    DecidedRight(d, req, env);
    var c, n := LookedAt(d, req, env), |Decided(d, req, env)|;
    if i in c[..n] {
      var k :| 0 <= k < n && c[k] == i;
      assert Gives(d, req, env, i) <==> Decided(d, req, env)[k].Gave?;
      DecisionSubject(Decided(d, req, env)[k], req, env, SweptRows(d, env)[i], RowsAfter(d, req, env)[i],
                      RowsAfter(d, req, env));
    } else {
      assert forall k :: 0 <= k < n ==> c[k] == c[..n][k];
    }
  }

  lemma DecisionSubject(decision: Decision, req: LeaseRequest, env: Env, e: Entry, f: Entry, entries: seq<Entry>)
    requires Right(decision, req, env, e, f, entries) && Due(e, env.now)
    ensures SubjectOf(f) == SubjectOf(e) && !IsRunning(e) && (IsRunning(f) <==> decision.Gave?)
  {
  }

  lemma RowKeepsId(d: Disk, req: LeaseRequest, env: Env, i: nat)
    requires Inv(d) && ValidLease(req) && i < |SweptRows(d, env)|
    ensures RowsAfter(d, req, env)[i].id == SweptRows(d, env)[i].id
  {
    hide Inv, ValidLease, Right, PlanLeaseV2, SweptRows, LookedAt, Decided, RowsAfter;
    DecidedRight(d, req, env);
    var c, n := LookedAt(d, req, env), |Decided(d, req, env)|;
    if i in c[..n] {
      var k :| 0 <= k < n && c[k] == i;
      DecisionKeepsId(Decided(d, req, env)[k], req, env, SweptRows(d, env)[i], RowsAfter(d, req, env)[i],
                      RowsAfter(d, req, env));
    }
  }

  lemma DecisionKeepsId(decision: Decision, req: LeaseRequest, env: Env, e: Entry, f: Entry, entries: seq<Entry>)
    requires Right(decision, req, env, e, f, entries)
    ensures f.id == e.id
  {
  }

  /**
   * Over any queue in good order: afterwards no subject runs twice exactly if none did and no given row shares its
   * subject with a row that was running or is given too.
   */
  lemma HandOutRunsOnce(d: Disk, req: LeaseRequest, env: Env)
    requires Inv(d) && ValidLease(req)
    ensures RowsAfter(d, req, env) == PlanLeaseV2(d.live, req, env).queue.entries
    ensures OneEach(RowsAfter(d, req, env)) <==>
              && OneEach(SweptRows(d, env))
              && forall i, j :: 0 <= i < |SweptRows(d, env)| && 0 <= j < |SweptRows(d, env)| && i != j
                                && Gives(d, req, env, i) && (IsRunning(SweptRows(d, env)[j]) || Gives(d, req, env, j))
                                ==> SubjectOf(SweptRows(d, env)[i]) != SubjectOf(SweptRows(d, env)[j])
  {
    hide Inv, ValidLease, SweptRows, LookedAt, Decided, RowsAfter, PlanLeaseV2, Gives, IsRunning, SubjectOf;
    DecidedRight(d, req, env);
    forall i | 0 <= i < |SweptRows(d, env)|
      ensures SubjectOf(RowsAfter(d, req, env)[i]) == SubjectOf(SweptRows(d, env)[i])
      ensures IsRunning(RowsAfter(d, req, env)[i]) <==> IsRunning(SweptRows(d, env)[i]) || Gives(d, req, env, i)
    {
      SubjectStays(d, req, env, i);
    }
    if OneEach(RowsAfter(d, req, env)) {
      forall i, j | 0 <= i < |SweptRows(d, env)| && 0 <= j < |SweptRows(d, env)| && i != j
                    && Gives(d, req, env, i) && (IsRunning(SweptRows(d, env)[j]) || Gives(d, req, env, j))
        ensures SubjectOf(SweptRows(d, env)[i]) != SubjectOf(SweptRows(d, env)[j])
      {
        assert IsRunning(RowsAfter(d, req, env)[i]) && IsRunning(RowsAfter(d, req, env)[j]);
      }
    }
  }

  // ---------------------------------------------------------------------
  // Two rows at the head
  // ---------------------------------------------------------------------

  /** Two due rows at the head of the queue are looked at first, by any call that asks for two. */
  lemma HeadIsDecided(d: Disk, req: LeaseRequest, env: Env)
    requires Inv(d) && ValidLease(req) && req.max >= 2
    requires |SweptRows(d, env)| >= 2 && Due(SweptRows(d, env)[0], env.now) && Due(SweptRows(d, env)[1], env.now)
    ensures 2 <= |Decided(d, req, env)| <= |LookedAt(d, req, env)|
    ensures LookedAt(d, req, env)[0] == 0 && LookedAt(d, req, env)[1] == 1
  {
    hide Inv, ValidLease, Right, PlanLeaseV2, Decided, RowsAfter, Due;
    DecidedRight(d, req, env);
    HeadComesFirst(SweptRows(d, env), CandidateCap(req.max), env.now);
  }

  lemma HeadComesFirst(entries: seq<Entry>, cap: nat, now: Instant)
    requires |entries| >= 2 && Due(entries[0], now) && Due(entries[1], now) && cap >= 2
    ensures var c := Candidates(entries, 0, cap, now); |c| >= 2 && c[0] == 0 && c[1] == 1
  {
    hide Due;
    assert Candidates(entries, 1, cap - 1, now) == [1] + Candidates(entries, 2, cap - 2, now);
  }
}
