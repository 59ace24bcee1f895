/** The ticketed hand-out loop over any queue whatever, damaged ones included. */
module HandOutScan {
  import opened Wrappers
  import opened QueueState
  import opened FencedQueue
  import opened Effects

  /** What one turn of the loop decided about its candidate. */
  datatype Decision = Gave(grant: Grant) | Refused(block: Block)

  function GrantsOf(decisions: seq<Decision>): seq<Grant> {
    if decisions == [] then []
    else
      var n := |decisions| - 1;
      GrantsOf(decisions[..n]) + if decisions[n].Gave? then [decisions[n].grant] else []
  }

  function BlocksOf(decisions: seq<Decision>): seq<Block> {
    if decisions == [] then []
    else
      var n := |decisions| - 1;
      BlocksOf(decisions[..n]) + if decisions[n].Refused? then [decisions[n].block] else []
  }

  /** The workflow ids of the given rows that had none of their own, in order. */
  function FreshIds(entries: seq<Entry>, c: seq<nat>, decisions: seq<Decision>): seq<string>
    requires |decisions| <= |c| && forall k :: 0 <= k < |c| ==> c[k] < |entries|
  {
    if decisions == [] then []
    else
      var n := |decisions| - 1;
      FreshIds(entries, c, decisions[..n])
      + if decisions[n].Gave? && NonEmpty(entries[c[n]].workflowId).None? then [decisions[n].grant.fence.workflowId]
        else []
  }

  /** The decision of one turn. */
  function Decide(s: Scan, i: nat, req: LeaseRequest, now: Instant, expires: Instant): Decision
    requires i < |s.queue.entries|
  {
    var t := Visit(s, i, req, now, expires);
    if |s.leased| < |t.leased| then Gave(t.leased[|s.leased|])
    else if |s.blocked| < |t.blocked| then Refused(t.blocked[|s.blocked|])
    else Refused(Block("", MissingExecutionIdentity, None))
  }

  function Decisions(start: Scan, c: seq<nat>, n: nat, req: LeaseRequest, now: Instant, expires: Instant)
    : (decisions: seq<Decision>)
    requires n <= |c|
    requires forall k :: 0 <= k < |c| ==> c[k] < |start.queue.entries|
    ensures |decisions| <= n
  {
    if n == 0 then []
    else
      var before := ScanAfter(start, c, n - 1, req, now, expires);
      var earlier := Decisions(start, c, n - 1, req, now, expires);
      if req.max <= |before.leased| || before.outOfIds then earlier
      else earlier + [Decide(before, c[n - 1], req, now, expires)]
  }

  lemma ScanStarts(start: Scan, c: seq<nat>, req: LeaseRequest, now: Instant, expires: Instant)
    requires forall k :: 0 <= k < |c| ==> c[k] < |start.queue.entries|
    ensures ScanAfter(start, c, 0, req, now, expires) == start
  {
  }

  /** Turn `n` of the loop. */
  lemma ScanTurns(start: Scan, c: seq<nat>, n: nat, req: LeaseRequest, now: Instant, expires: Instant)
    requires n < |c|
    requires forall k :: 0 <= k < |c| ==> c[k] < |start.queue.entries|
    ensures var before := ScanAfter(start, c, n, req, now, expires);
            if req.max <= |before.leased| || before.outOfIds
            then && ScanAfter(start, c, n + 1, req, now, expires) == before
                 && Decisions(start, c, n + 1, req, now, expires) == Decisions(start, c, n, req, now, expires)
            else && ScanAfter(start, c, n + 1, req, now, expires) == Visit(before, c[n], req, now, expires)
                 && Decisions(start, c, n + 1, req, now, expires)
                    == Decisions(start, c, n, req, now, expires) + [Decide(before, c[n], req, now, expires)]
  {
  }

  /** What a turn that decides `decision` leaves. */
  ghost predicate Turned(s: Scan, t: Scan, i: nat, decision: Decision, req: LeaseRequest)
    requires i < |s.queue.entries| == |t.queue.entries|
  {
    && t.queue.entries == s.queue.entries[i := t.queue.entries[i]]
    && t.outOfIds == s.outOfIds
    && t.leased == s.leased + (if decision.Gave? then [decision.grant] else [])
    && t.blocked == s.blocked + (if decision.Refused? then [decision.block] else [])
    && if decision.Gave? && NonEmpty(s.queue.entries[i].workflowId).None?
       then && s.used < |req.workflowIds| && t.used == s.used + 1
            && decision.grant.fence.workflowId == req.workflowIds[s.used]
       else t.used == s.used
  }

  /** A scan under way: `decisions` are about the first candidates, fresh ids went in order, nothing else changed. */
  ghost predicate Frugal(start: Scan, t: Scan, c: seq<nat>, n: nat, decisions: seq<Decision>, req: LeaseRequest)
    requires |start.queue.entries| == |t.queue.entries| && n <= |c|
    requires forall k :: 0 <= k < |c| ==> c[k] < |start.queue.entries|
  {
    && !t.outOfIds
    && |decisions| <= n && (|decisions| == n || |t.leased| == req.max)
    && |t.leased| <= req.max
    && t.leased == GrantsOf(decisions) && t.blocked == BlocksOf(decisions)
    && t.used == |FreshIds(start.queue.entries, c, decisions)| <= |t.leased|
    && t.used <= |req.workflowIds|
    && FreshIds(start.queue.entries, c, decisions) == req.workflowIds[..t.used]
    && (forall i :: 0 <= i < |t.queue.entries| && i !in c[..|decisions|] ==>
          t.queue.entries[i] == start.queue.entries[i])
  }

  /** A refused row keeps everything except an identity it may have been given, and the refusal names it. */
  ghost predicate LeftAlone(decision: Decision, e: Entry, f: Entry) {
    decision.Refused? ==> decision.block.entryId == e.id && f == Identify(e, f)
  }

  /** A given row takes the next fresh id exactly when it has none of its own; a refused one takes none. */
  lemma AnyHandOut(s: Scan, i: nat, req: LeaseRequest, now: Instant, expires: Instant)
    requires i < |s.queue.entries| && s.used < |req.workflowIds|
    ensures var t := HandOut(s, i, req, now, expires);
            var e := s.queue.entries[i];
            || (Turned(s, t, i, Refused(Block(e.id, MissingExecutionIdentity, None)), req) && t.queue.entries[i] == e)
            || (|t.leased| == |s.leased| + 1 && Turned(s, t, i, Gave(t.leased[|s.leased|]), req))
  {
    var t := HandOut(s, i, req, now, expires);
    assert s.queue.entries[i := s.queue.entries[i]] == s.queue.entries;
    if |t.leased| == |s.leased| + 1 {
      assert t.leased == s.leased + [t.leased[|s.leased|]];
    }
  }

  lemma AnyTurn(s: Scan, i: nat, req: LeaseRequest, now: Instant, expires: Instant)
    requires i < |s.queue.entries| && s.used < |req.workflowIds|
    ensures var t := Visit(s, i, req, now, expires);
            var decision := Decide(s, i, req, now, expires);
            Turned(s, t, i, decision, req) && LeftAlone(decision, s.queue.entries[i], t.queue.entries[i])
  {
    hide HandOut, NextGeneration, Conflict;
    var e := s.queue.entries[i];
    if e.dispatch.Some? && EnsureIdentity(s.queue, i).Some? {
      var identity := EnsureIdentity(s.queue, i).value;
      var named := s.(queue := identity.queue, changed := s.changed || !Ticketed(e));
      AnyIdentity(s.queue, i);
      AnyHandOut(named, i, req, now, expires);
      AnyConflict(named.queue.entries, i, identity.subject, req.exclude);
    } else {
      assert s.queue.entries[i := e] == s.queue.entries;
    }
  }

  lemma AnyIdentity(q: Queue, i: nat)
    requires i < |q.entries| && EnsureIdentity(q, i).Some?
    ensures var named := EnsureIdentity(q, i).value.queue.entries;
            && named == q.entries[i := named[i]]
            && named[i] == Identify(q.entries[i], named[i])
  {
  }

  lemma AnyConflict(entries: seq<Entry>, i: nat, subject: SubjectGeneration, exclude: seq<Fence>)
    requires i < |entries|
    ensures var conflict := Conflict(entries, i, subject, exclude);
            conflict.Some? ==> conflict.value.entryId == entries[i].id
  {
  }

  /**
   * Over any queue: every candidate looked at is given or refused, never both; fresh ids form a prefix of the request,
   * each used once; damaged rows consume none, so the ids never run out before the batch is full; and refused rows
   * keep everything except a newly minted identity.
   */
  lemma {:induction false} ScanIsFrugal(start: Scan, c: seq<nat>, n: nat, req: LeaseRequest,
                                        now: Instant, expires: Instant)
    requires n <= |c| && |req.workflowIds| == req.max
    requires forall k :: 0 <= k < |c| ==> c[k] < |start.queue.entries|
    requires forall k, l :: 0 <= k < l < |c| ==> c[k] < c[l]
    requires start.used == 0 && start.leased == [] && start.blocked == [] && !start.outOfIds
    ensures var t := ScanAfter(start, c, n, req, now, expires);
            var decisions := Decisions(start, c, n, req, now, expires);
            && Frugal(start, t, c, n, decisions, req)
            && forall k :: 0 <= k < |decisions| ==>
                 LeftAlone(decisions[k], start.queue.entries[c[k]], t.queue.entries[c[k]])
  {
    hide Visit, Decide, Turned, LeftAlone, Frugal;
    if n == 0 {
      FrugalStarts(start, c, req);
    } else {
      ScanIsFrugal(start, c, n - 1, req, now, expires);
      var s := ScanAfter(start, c, n - 1, req, now, expires);
      var decisions := Decisions(start, c, n - 1, req, now, expires);
      FrugalFacts(start, s, c, n - 1, decisions, req);
      if |s.leased| < req.max {
        var t := Visit(s, c[n - 1], req, now, expires);
        AnyTurn(s, c[n - 1], req, now, expires);
        FrugalStep(start, s, t, c, n, decisions, Decide(s, c[n - 1], req, now, expires), req);
      }
    }
  }

  lemma FreshStep(start: Scan, s: Scan, t: Scan, c: seq<nat>, n: nat, decisions: seq<Decision>, decision: Decision,
                  req: LeaseRequest)
    requires |start.queue.entries| == |s.queue.entries| == |t.queue.entries| && 0 < n <= |c| && |decisions| == n - 1
    requires forall k :: 0 <= k < |c| ==> c[k] < |start.queue.entries|
    requires s.queue.entries[c[n - 1]] == start.queue.entries[c[n - 1]]
    requires Turned(s, t, c[n - 1], decision, req)
    requires s.used == |FreshIds(start.queue.entries, c, decisions)| <= |s.leased| < |req.workflowIds|
    requires FreshIds(start.queue.entries, c, decisions) == req.workflowIds[..s.used]
    ensures t.used == |FreshIds(start.queue.entries, c, decisions + [decision])| <= |t.leased|
    ensures t.used <= |req.workflowIds|
    ensures FreshIds(start.queue.entries, c, decisions + [decision]) == req.workflowIds[..t.used]
  {
    var all := decisions + [decision];
    assert all[..n - 1] == decisions;
  }

  lemma FrugalStarts(start: Scan, c: seq<nat>, req: LeaseRequest)
    requires forall k :: 0 <= k < |c| ==> c[k] < |start.queue.entries|
    requires start.used == 0 && start.leased == [] && start.blocked == [] && !start.outOfIds
    ensures Frugal(start, start, c, 0, [], req)
  {
  }

  lemma FrugalFacts(start: Scan, s: Scan, c: seq<nat>, n: nat, decisions: seq<Decision>, req: LeaseRequest)
    requires |start.queue.entries| == |s.queue.entries| && n < |c|
    requires forall k :: 0 <= k < |c| ==> c[k] < |start.queue.entries|
    requires forall k, l :: 0 <= k < l < |c| ==> c[k] < c[l]
    requires Frugal(start, s, c, n, decisions, req)
    ensures |s.leased| <= req.max && !s.outOfIds && s.used <= |s.leased| && |decisions| <= n
    ensures |s.leased| == req.max ==> Frugal(start, s, c, n + 1, decisions, req)
    ensures |s.leased| < req.max ==> |decisions| == n && s.queue.entries[c[n]] == start.queue.entries[c[n]]
  {
    if |s.leased| < req.max {
      assert c[n] !in c[..|decisions|];
    }
  }

  lemma FrugalStep(start: Scan, s: Scan, t: Scan, c: seq<nat>, n: nat, decisions: seq<Decision>, decision: Decision,
                   req: LeaseRequest)
    requires |start.queue.entries| == |s.queue.entries| == |t.queue.entries| && 0 < n <= |c|
    requires forall k :: 0 <= k < |c| ==> c[k] < |start.queue.entries|
    requires forall k, l :: 0 <= k < l < |c| ==> c[k] < c[l]
    requires Frugal(start, s, c, n - 1, decisions, req) && |s.leased| < req.max == |req.workflowIds|
    requires Turned(s, t, c[n - 1], decision, req)
    requires LeftAlone(decision, s.queue.entries[c[n - 1]], t.queue.entries[c[n - 1]])
    requires forall k :: 0 <= k < |decisions| ==>
               LeftAlone(decisions[k], start.queue.entries[c[k]], s.queue.entries[c[k]])
    ensures Frugal(start, t, c, n, decisions + [decision], req)
    ensures var all := decisions + [decision];
            forall k :: 0 <= k < |all| ==> LeftAlone(all[k], start.queue.entries[c[k]], t.queue.entries[c[k]])
  {
    hide LeftAlone;
    var all := decisions + [decision];
    assert |decisions| == n - 1;
    assert all[..n - 1] == decisions;
    assert c[..n] == c[..n - 1] + [c[n - 1]];
    assert c[n - 1] !in c[..n - 1];
    FreshStep(start, s, t, c, n, decisions, decision, req);
  }
}
