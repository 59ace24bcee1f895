/** What every reachable pair of files satisfies. */
module Invariant {
  import opened Wrappers
  import opened Text
  import opened QueueState
  import opened QueueHistory
  import opened QueueService
  import opened FencedQueue
  import opened Machine
  import opened Effects
  import opened HandOutScan

  // ---------------------------------------------------------------------
  // Relations between versions of rows
  // ---------------------------------------------------------------------

  ghost predicate NumberKnown(counters: map<string, nat>, subject: string, generation: nat) {
    subject in counters && generation <= counters[subject]
  }

  /** A row in good order; only ticketed rows carry reservations, keys and leases. */
  ghost predicate RowOk(e: Entry, counters: map<string, nat>) {
    && (Ticketed(e) ==> && e.subject.Some? && e.subject.value != "" && 0 < e.subjectGen.value
                        && NumberKnown(counters, e.subject.value, e.subjectGen.value))
    && (e.repository.Some? || e.key.Some? || e.extraKeys != [] || e.workflowGen.Some? || e.leaseGen > 0 ==> Ticketed(e))
    && (e.workflowGen.Some? ==> 0 < e.workflowGen.value)
    && (e.leaseGen > 0 ==> ExecutionFence(e).Some?)
    && (Ticketed(e) && e.status == Assigned ==> e.leaseGen > 0)
    && (e.key.Some? ==> e.hash.Some?)
    && (e.dispatch.Some? ==> e.dispatch.value.canonicalId != Some(""))
  }

  /** `b` is a later version of `a`. */
  ghost predicate Grows(a: Entry, b: Entry) {
    && b.id == a.id && b.repository == a.repository && b.runAt == a.runAt && b.expireAfter == a.expireAfter
    && b.key == a.key && b.hash == a.hash && a.extraKeys <= b.extraKeys
    && a.leaseGen <= b.leaseGen
    && (Ticketed(a) ==> b.subject == a.subject && b.subjectGen == a.subjectGen)
    && (a.leaseGen > 0 ==> b.workflowId == a.workflowId && b.workflowGen == a.workflowGen)
    && (a.leaseGen > 0 && b.leaseGen == a.leaseGen ==>
          b.owner == a.owner && a.expiresAt.Some? && b.expiresAt.Some? && a.expiresAt.value <= b.expiresAt.value)
  }

  lemma GrowsTransitive(a: Entry, b: Entry, c: Entry)
    requires Grows(a, b) && Grows(b, c)
    ensures Grows(a, c)
  {
  }

  ghost predicate SameNumber(a: Entry, b: Entry) {
    Ticketed(a) && a.subject == b.subject && a.subjectGen == b.subjectGen
  }

  /** Rows of different entries: no common number, no common key. */
  ghost predicate Separate(a: Entry, b: Entry) {
    && !SameNumber(a, b)
    && forall k :: HoldsKey(a, k) ==> !HoldsKey(b, k)
  }

  ghost predicate Coherent(a: Entry, b: Entry) {
    if a.id == b.id then Grows(a, b) else Separate(a, b)
  }

  ghost predicate Clash(a: Entry, b: Entry) {
    && a.status == Assigned && b.status == Assigned
    && a.repository.Some? && b.repository.Some?
    && a.repository.value.collisionKey == b.repository.value.collisionKey
  }

  ghost predicate Inv(d: Disk) {
    && UniqueIds(d.live.entries)
    && (forall e :: e in d.live.entries ==> RowOk(e, d.live.counters))
    && (forall r :: r in d.log ==> RowOk(r.entry, d.live.counters) && r.entry == Snapshot(r.entry))
    && (forall i, j :: 0 <= i < j < |d.log| ==> Coherent(d.log[i].entry, d.log[j].entry))
    && (forall r, e :: r in d.log && e in d.live.entries ==> Coherent(r.entry, e))
    && (forall a, b :: a in d.live.entries && b in d.live.entries && a.id != b.id ==> Separate(a, b) && !Clash(a, b))
  }

  lemma InvUndamaged(d: Disk)
    requires Inv(d)
    ensures Undamaged(d.live)
  {
  }

  // ---------------------------------------------------------------------
  // Elementary steps
  // ---------------------------------------------------------------------

  lemma SnapshotKeeps(d: Disk, e: Entry, r: Record)
    requires Inv(d) && e in d.live.entries && r.entry == Snapshot(e)
    ensures Inv(Disk(d.live, d.log + [r]))
  {
    assert forall k :: BoundHash(r.entry, k) == BoundHash(e, k);
    forall x, f | x in d.log + [r] && f in d.live.entries
      ensures Coherent(x.entry, f)
    {
      if x == r && f.id == e.id {
        ById(d.live.entries, e, f);
      }
    }
  }

  /** Appending snapshots of live rows keeps the invariant: this is what an interrupted commit does. */
  lemma {:induction false} RecordsKeep(d: Disk, records: seq<Record>)
    requires Inv(d)
    requires forall r :: r in records ==> exists e :: e in d.live.entries && r.entry == Snapshot(e)
    ensures Inv(Disk(d.live, d.log + records))
  {
    hide Inv;
    if records == [] {
      assert d.log + records == d.log;
    } else {
      var n := |records| - 1;
      assert forall r :: r in records[..n] ==> r in records;
      RecordsKeep(d, records[..n]);
      var e :| e in d.live.entries && records[n].entry == Snapshot(e);
      SnapshotKeeps(Disk(d.live, d.log + records[..n]), e, records[n]);
      assert d.log + records == d.log + records[..n] + [records[n]];
    }
  }

  lemma ShrinkKeeps(d: Disk, q: Queue)
    requires Inv(d) && UniqueIds(q.entries) && q.counters == d.live.counters
    requires forall e :: e in q.entries ==> e in d.live.entries
    ensures Inv(Disk(q, d.log))
  {
  }

  ghost predicate CountersGrow(before: map<string, nat>, after: map<string, nat>) {
    forall s :: s in before ==> s in after && before[s] <= after[s]
  }

  lemma CountersKeep(e: Entry, before: map<string, nat>, after: map<string, nat>)
    requires RowOk(e, before) && CountersGrow(before, after)
    ensures RowOk(e, after)
  {
  }

  /** Every row and record but those of entry `id` is separate from `f`. */
  ghost predicate Apart(d: Disk, f: Entry) {
    && (forall r :: r in d.log && r.entry.id != f.id ==> Separate(r.entry, f))
    && (forall e :: e in d.live.entries && e.id != f.id ==>
          Separate(e, f) && Separate(f, e) && !Clash(e, f) && !Clash(f, e))
  }

  lemma ReplaceKeeps(d: Disk, i: nat, f: Entry, counters: map<string, nat>)
    requires Inv(d) && i < |d.live.entries|
    requires CountersGrow(d.live.counters, counters) && RowOk(f, counters)
    requires Grows(d.live.entries[i], f) && Apart(d, f)
    ensures Inv(Disk(Queue(d.live.entries[i := f], counters), d.log))
  {
    hide Grows, RowOk, Separate, Clash;
    var e := d.live.entries[i];
    var after := d.live.entries[i := f];
    assert e in d.live.entries;
    assert e.id == f.id by { GrowsKeepsId(e, f); }
    forall x | x in after
      ensures RowOk(x, counters)
    {
      if x != f { CountersKeep(x, d.live.counters, counters); }
    }
    forall r | r in d.log
      ensures RowOk(r.entry, counters) && r.entry == Snapshot(r.entry)
    {
      CountersKeep(r.entry, d.live.counters, counters);
    }
    forall r, x | r in d.log && x in after
      ensures Coherent(r.entry, x)
    {
      if x == f && r.entry.id == f.id {
        assert Coherent(r.entry, e);
        GrowsTransitive(r.entry, e, f);
      }
    }
  }

  lemma GrowsKeepsId(a: Entry, b: Entry)
    requires Grows(a, b)
    ensures a.id == b.id
  {
  }

  lemma AppendKeeps(d: Disk, f: Entry, counters: map<string, nat>)
    requires Inv(d) && f.id !in Ids(d.live.entries) && f.id !in LogIds(d.log)
    requires CountersGrow(d.live.counters, counters) && RowOk(f, counters)
    requires Apart(d, f)
    ensures Inv(Disk(Queue(d.live.entries + [f], counters), d.log))
  {
    hide Grows, RowOk, Separate, Clash;
    var after := d.live.entries + [f];
    assert forall e :: e in d.live.entries ==> e.id in Ids(d.live.entries);
    assert forall r :: r in d.log ==> r.entry.id in LogIds(d.log);
    UniqueAppend(d.live.entries, f);
    forall x | x in after
      ensures RowOk(x, counters)
    {
      if x != f { CountersKeep(x, d.live.counters, counters); }
    }
    forall r | r in d.log
      ensures RowOk(r.entry, counters) && r.entry == Snapshot(r.entry)
    {
      CountersKeep(r.entry, d.live.counters, counters);
    }
  }

  // ---------------------------------------------------------------------
  // What the steps need
  // ---------------------------------------------------------------------

  /** A row that keeps its identity and keys, and does not start running, stays apart from the others. */
  lemma ApartInherited(d: Disk, e: Entry, f: Entry)
    requires Inv(d) && e in d.live.entries
    requires f.id == e.id && f.subject == e.subject && f.subjectGen == e.subjectGen
    requires f.key == e.key && f.hash == e.hash && f.extraKeys == e.extraKeys && f.repository == e.repository
    requires f.status == Assigned ==>
               e.status == Assigned || f.repository.None?
               || forall x :: x in d.live.entries ==> !HoldsBranch(x, f.repository.value.collisionKey)
    ensures Apart(d, f)
  {
    assert forall k :: BoundHash(f, k) == BoundHash(e, k);
    forall r | r in d.log && r.entry.id != f.id
      ensures Separate(r.entry, f)
    {
      assert Coherent(r.entry, e);
    }
  }

  lemma ExtraAppended(bindings: seq<Binding>, b: Binding, key: string)
    ensures ExtraHash(bindings + [b], key)
            == if ExtraHash(bindings, key).Some? then ExtraHash(bindings, key)
               else if b.key == key then Some(b.hash) else None
  {
    if bindings != [] {
      assert (bindings + [b])[1..] == bindings[1..] + [b];
    }
  }

  /** Binding a key nobody holds. */
  lemma BindKeeps(d: Disk, i: nat, key: Option<string>, hash: string)
    requires Inv(d) && i < |d.live.entries| && Ticketed(d.live.entries[i])
    requires key.Some? ==> forall e :: e in d.live.entries ==> !HoldsKey(e, key.value)
    requires key.Some? ==> forall r :: r in d.log ==> !HoldsKey(r.entry, key.value)
    ensures Inv(Disk(WithRow(d.live, i, Bound(d.live.entries[i], key, hash)), d.log))
  {
    var e := d.live.entries[i];
    var f := Bound(e, key, hash);
    if key.Some? {
      forall k
        ensures HoldsKey(f, k) <==> HoldsKey(e, k) || k == key.value
      {
        ExtraAppended(e.extraKeys, Binding(key.value, hash), k);
      }
      assert e in d.live.entries;
      assert Apart(d, f);
      ReplaceKeeps(d, i, f, d.live.counters);
    } else {
      assert d.live.entries[i := f] == d.live.entries;
    }
  }

  /** A number above a subject's counter and live rows was never given to that subject. */
  lemma NextIsNew(d: Disk, subject: string, e: Entry)
    requires Inv(d)
    requires e in d.live.entries || exists r :: r in d.log && r.entry == e
    ensures !(e.subject == Some(subject) && e.subjectGen == Some(NextGeneration(d.live, subject)))
    ensures CountersGrow(d.live.counters, Counted(d.live, subject).counters)
  {
  }

  /** Giving an old-style row its ticket identity. */
  lemma IdentityKeeps(d: Disk, i: nat)
    requires Inv(d) && i < |d.live.entries| && EnsureIdentity(d.live, i).Some?
    requires d.live.entries[i].status != Assigned || Ticketed(d.live.entries[i])
    ensures Inv(Disk(EnsureIdentity(d.live, i).value.queue, d.log))
  {
    var e := d.live.entries[i];
    assert e in d.live.entries;
    if !Ticketed(e) {
      var s := e.dispatch.value.canonicalId.value;
      var f := e.(subject := Some(s), subjectGen := Some(NextGeneration(d.live, s)));
      assert forall k :: BoundHash(f, k) == BoundHash(e, k);
      forall r | r in d.log && r.entry.id != f.id
        ensures Separate(r.entry, f)
      {
        NextIsNew(d, s, r.entry);
        assert Coherent(r.entry, e);
      }
      forall x | x in d.live.entries && x.id != f.id
        ensures Separate(x, f) && Separate(f, x)
      {
        NextIsNew(d, s, x);
      }
      NextIsNew(d, s, e);
      ReplaceKeeps(d, i, f, Counted(d.live, s).counters);
    }
  }

  /** A hand-out that met no conflict. */
  lemma HandOutKeeps(d: Disk, i: nat, workflowId: string, owner: string, now: Instant, expires: Instant)
    requires Inv(d) && i < |d.live.entries| && Ticketed(d.live.entries[i])
    requires var e := d.live.entries[i];
             && (e.repository.Some? ==>
                   forall x :: x in d.live.entries ==> !HoldsBranch(x, e.repository.value.collisionKey))
             && (NonEmpty(e.workflowId).Some? ==> workflowId == e.workflowId.value)
             && ExecutionFence(HandedOut(e, workflowId, owner, now, expires)).Some?
    ensures Inv(Disk(WithRow(d.live, i, HandedOut(d.live.entries[i], workflowId, owner, now, expires)), d.log))
  {
    var e := d.live.entries[i];
    var f := HandedOut(e, workflowId, owner, now, expires);
    assert e in d.live.entries;
    ApartInherited(d, e, f);
    ReplaceKeeps(d, i, f, d.live.counters);
  }

  /** Whatever a call does to a row makes it a later version of itself. */
  lemma {:induction false} ChangeGrows(call: Call, env: Env, reply: Reply, e: Entry, f: Entry,
                                       counters: map<string, nat>)
    requires RowOk(e, counters) && RowChange(call, env, reply, e, f)
    ensures Grows(e, f)
  {
    hide LeaseChange;
    if call.LeaseV2? && f != e {
      HandOutGrows(call.lease, env, reply.leased, e, f, counters);
    }
  }

  lemma HandOutGrows(req: LeaseRequest, env: Env, leased: seq<Grant>, e: Entry, f: Entry, counters: map<string, nat>)
    requires RowOk(e, counters) && LeaseChange(req, env, leased, e, f)
    ensures Grows(e, f)
  {
  }

  // ---------------------------------------------------------------------
  // Calls
  // ---------------------------------------------------------------------

  /** The files once the sweep's records are appended and its rows are gone. */
  function SweptDisk(d: Disk, now: Instant): Disk {
    Disk(SweepQueue(d.live, now), d.log + SweepFinished(d.live, now))
  }

  lemma SweepKeeps(d: Disk, now: Instant)
    requires Inv(d)
    ensures Inv(SweptDisk(d, now))
  {
    hide RowOk, Coherent, Separate, Clash;
    var finished := SweepFinished(d.live, now);
    forall r | r in finished
      ensures exists e :: e in d.live.entries && r.entry == Snapshot(e)
    {
      var e := SweepRecordOf(d.live.entries, now, r);
    }
    RecordsKeep(d, finished);
    SweepSplits(d.live.entries, now);
    ShrinkKeeps(Disk(d.live, d.log + finished), SweepQueue(d.live, now));
  }

  /** One turn of the hand-out loop. */
  lemma VisitKeeps(s: Scan, i: nat, req: LeaseRequest, now: Instant, expires: Instant, log: seq<Record>)
    requires Inv(Disk(s.queue, log)) && i < |s.queue.entries| && s.queue.entries[i].status == Pending
    ensures Inv(Disk(Visit(s, i, req, now, expires).queue, log))
  {
    hide Inv, LiveMax, RunningOnBranch, FenceOnBranch, FenceOnSubject;
    var e := s.queue.entries[i];
    if e.dispatch.Some? && EnsureIdentity(s.queue, i).Some? {
      var identity := EnsureIdentity(s.queue, i).value;
      IdentityKeeps(Disk(s.queue, log), i);
      var named := s.(queue := identity.queue, changed := s.changed || !Ticketed(e));
      if Conflict(named.queue.entries, i, identity.subject, req.exclude).None? {
        var t := HandOut(named, i, req, now, expires);
        if t.queue != named.queue {
          HandOutKeeps(Disk(named.queue, log), i, t.queue.entries[i].workflowId.value, Trim(req.owner), now, expires);
        }
      }
    }
  }

  lemma {:induction false} ScanKeeps(start: Scan, c: seq<nat>, n: nat, req: LeaseRequest, env: Env, log: seq<Record>)
    requires n <= |c|
    requires forall k :: 0 <= k < |c| ==> c[k] < |start.queue.entries| && Due(start.queue.entries[c[k]], env.now)
    requires forall k, l :: 0 <= k < l < |c| ==> c[k] < c[l]
    requires Inv(Disk(start.queue, log))
    ensures Inv(Disk(ScanAfter(start, c, n, req, env.now, ExpiryOf(env)).queue, log))
  {
    hide Visit, Inv, LeaseChange, ScanAfter, Decisions, Decide;
    if n == 0 {
      ScanStarts(start, c, req, env.now, ExpiryOf(env));
    } else {
      ScanTurns(start, c, n - 1, req, env.now, ExpiryOf(env));
      ScanKeeps(start, c, n - 1, req, env, log);
      InvUndamaged(Disk(start.queue, log));
      ScanRows(start, c, n - 1, req, env);
      var before := ScanAfter(start, c, n - 1, req, env.now, ExpiryOf(env));
      assert c[n - 1] !in c[..n - 1];
      if !(req.max <= |before.leased| || before.outOfIds) {
        VisitKeeps(before, c[n - 1], req, env.now, ExpiryOf(env), log);
      }
    }
  }

  lemma LeaseV2Keeps(d: Disk, req: LeaseRequest, env: Env)
    requires Inv(d)
    ensures Inv(Commit(d, PlanLeaseV2(d.live, req, env)))
  {
    hide Inv, ScanAfter;
    var swept := SweptDisk(d, env.now);
    SweepKeeps(d, env.now);
    var c := Candidates(swept.live.entries, 0, CandidateCap(req.max), env.now);
    ScanKeeps(ScanStart(swept.live, SweepFinished(d.live, env.now)), c, |c|, req, env, swept.log);
    assert d.log + [] == d.log;
  }

  ghost predicate NobodyHolds(d: Disk, key: Option<string>) {
    && (key.Some? ==> forall e :: e in d.live.entries ==> !HoldsKey(e, key.value))
    && (key.Some? ==> forall r :: r in d.log ==> !HoldsKey(r.entry, key.value))
  }

  /** A key with no holder in sight was never bound. */
  lemma KeyIsNew(d: Disk, add: AddRequest, env: Env)
    requires Holder(SweepQueue(d.live, env.now), SweepFinished(d.live, env.now), Recall(d, EnqueueV2(add), env),
                    TrimmedKey(add)).None?
    ensures NobodyHolds(SweptDisk(d, env.now), TrimmedKey(add))
  {
  }

  lemma IdentityKeys(d: Disk, i: nat, key: Option<string>)
    requires i < |d.live.entries| && EnsureIdentity(d.live, i).Some? && NobodyHolds(d, key)
    ensures NobodyHolds(Disk(EnsureIdentity(d.live, i).value.queue, d.log), key)
  {
    var q := EnsureIdentity(d.live, i).value.queue;
    assert d.live.entries[i] in d.live.entries;
    assert forall k :: BoundHash(q.entries[i], k) == BoundHash(d.live.entries[i], k);
  }

  lemma SweptIds(d: Disk, now: Instant, id: string)
    requires id !in Ids(d.live.entries) && id !in LogIds(d.log)
    ensures id !in Ids(SweptDisk(d, now).live.entries) && id !in LogIds(SweptDisk(d, now).log)
  {
    assert forall e :: e in d.live.entries ==> e.id in Ids(d.live.entries);
    assert forall r :: r in d.log ==> r.entry.id in LogIds(d.log);
    forall r | r in SweepFinished(d.live, now)
      ensures r.entry.id != id
    {
      var e := SweepRecordOf(d.live.entries, now, r);
    }
  }

  /** The new row of a ticketed add: its number and its key are new. */
  lemma NewRowKeeps(d: Disk, add: AddRequest, id: string)
    requires Inv(d) && Acceptable(add) && NobodyHolds(d, TrimmedKey(add))
    requires add.dispatch.canonicalId != Some("")
    requires id !in Ids(d.live.entries) && id !in LogIds(d.log)
    ensures var s := add.dispatch.canonicalId.value;
            var e := NewEntry(id, add, NextGeneration(d.live, s));
            Inv(Disk(Counted(d.live, s).(entries := d.live.entries + [e]), d.log))
  {
    var s := add.dispatch.canonicalId.value;
    var f := NewEntry(id, add, NextGeneration(d.live, s));
    assert forall k :: HoldsKey(f, k) ==> Some(k) == TrimmedKey(add);
    forall r | r in d.log
      ensures Separate(r.entry, f)
    {
      NextIsNew(d, s, r.entry);
    }
    forall e | e in d.live.entries
      ensures Separate(e, f) && Separate(f, e)
    {
      NextIsNew(d, s, e);
    }
    if d.live.entries == [] && d.log == [] {
    }
    CountedGrows(d.live, s);
    AppendKeeps(d, f, Counted(d.live, s).counters);
  }

  lemma CountedGrows(q: Queue, subject: string)
    ensures CountersGrow(q.counters, Counted(q, subject).counters)
  {
  }

  lemma NewAddKeeps(d: Disk, add: AddRequest, env: Env)
    requires Inv(d) && Acceptable(add) && Possible(d, Event(EnqueueV2(add), env, None))
    requires Holder(SweepQueue(d.live, env.now), SweepFinished(d.live, env.now), Recall(d, EnqueueV2(add), env),
                    TrimmedKey(add)).None?
    ensures Inv(Commit(d, PlanNewAdd(d.live, SweepQueue(d.live, env.now), SweepFinished(d.live, env.now), add, env)))
  {
    hide Inv, NobodyHolds, LiveMax, HighestTicketed, FirstWaiting;
    var swept := SweptDisk(d, env.now);
    SweepKeeps(d, env.now);
    KeyIsNew(d, add, env);
    var live := LiveEntryForSubject(swept.live.entries, add.dispatch.canonicalId.value);
    if live.None? {
      SweptIds(d, env.now, env.entryId);
      NewRowKeeps(swept, add, env.entryId);
    } else if EnsureIdentity(swept.live, live.value).Some? {
      AddToLiveKeeps(swept, live.value, add);
    }
  }

  /** An add that gets a live row back. */
  lemma AddToLiveKeeps(d: Disk, i: nat, add: AddRequest)
    requires Inv(d) && NobodyHolds(d, TrimmedKey(add))
    requires i < |d.live.entries| && EnsureIdentity(d.live, i).Some?
    requires d.live.entries[i].status != Assigned || Ticketed(d.live.entries[i])
    ensures var named := EnsureIdentity(d.live, i).value.queue;
            Inv(Disk(WithRow(named, i, Bound(named.entries[i], TrimmedKey(add), add.hash)), d.log))
  {
    hide Inv;
    IdentityKeeps(d, i);
    IdentityKeys(d, i, TrimmedKey(add));
    BindKeeps(Disk(EnsureIdentity(d.live, i).value.queue, d.log), i, TrimmedKey(add), add.hash);
  }

  lemma EnqueueV2Keeps(d: Disk, add: AddRequest, env: Env)
    requires Inv(d) && Possible(d, Event(EnqueueV2(add), env, None))
    ensures Inv(Commit(d, PlanOf(d, EnqueueV2(add), env)))
  {
    hide Inv, PlanNewAdd;
    assert d.log + [] == d.log;
    SweepKeeps(d, env.now);
    var past := Recall(d, EnqueueV2(add), env);
    if Acceptable(add)
       && Holder(SweepQueue(d.live, env.now), SweepFinished(d.live, env.now), past, TrimmedKey(add)).None? {
      NewAddKeeps(d, add, env);
    }
  }

  lemma EnqueueKeeps(d: Disk, call: Call, env: Env)
    requires Inv(d) && call.Enqueue? && Possible(d, Event(call, env, None))
    ensures Inv(Commit(d, PlanOf(d, call, env)))
  {
    hide Inv;
    if call.dispatch.legacyKey.None? {
      assert d.log + [] == d.log;
    } else {
      SweepKeeps(d, env.now);
      SweptIds(d, env.now, env.entryId);
      OldRowKeeps(SweptDisk(d, env.now), call, env.entryId);
    }
  }

  /** The new row of an old-style add has no number and no key. */
  lemma OldRowKeeps(d: Disk, call: Call, id: string)
    requires Inv(d) && call.Enqueue? && call.dispatch.canonicalId != Some("")
    requires id !in Ids(d.live.entries) && id !in LogIds(d.log)
    ensures var readable := if call.runAt.Some? && call.runAt.value.instant.Some? then call.runAt else None;
            var e := FromDispatch(id, call.dispatch, readable, call.expireAfter);
            Inv(Disk(d.live.(entries := d.live.entries + [e]), d.log))
  {
    var readable := if call.runAt.Some? && call.runAt.value.instant.Some? then call.runAt else None;
    var f := FromDispatch(id, call.dispatch, readable, call.expireAfter);
    assert forall k :: !HoldsKey(f, k);
    AppendKeeps(d, f, d.live.counters);
  }

  /** A change to one row of an unswept queue that no call can make with an identity, a key or a branch in play. */
  lemma RowKeeps(d: Disk, i: nat, f: Entry, call: Call, env: Env, reply: Reply)
    requires Inv(d) && i < |d.live.entries|
    requires RowChange(call, env, reply, d.live.entries[i], f)
    requires !call.LeaseV2? && !call.EnqueueV2?
    requires RowOk(f, d.live.counters)
    ensures Inv(Disk(WithRow(d.live, i, f), d.log))
  {
    var e := d.live.entries[i];
    assert e in d.live.entries;
    ChangeGrows(call, env, reply, e, f, d.live.counters);
    ApartInherited(d, e, f);
    ReplaceKeeps(d, i, f, d.live.counters);
  }

  lemma FinishKeeps(d: Disk, i: nat, r: Record)
    requires Inv(d) && i < |d.live.entries| && r.entry == Snapshot(d.live.entries[i])
    ensures Inv(Disk(WithoutRow(d.live, i), d.log + [r]))
  {
    assert d.live.entries[i] in d.live.entries;
    SnapshotKeeps(d, d.live.entries[i], r);
    var rest := Removed(d.live.entries, i);
    ShrinkKeeps(Disk(d.live, d.log + [r]), WithoutRow(d.live, i));
  }

  lemma TicketKeeps(d: Disk, call: Call, env: Env)
    requires Inv(d) && call.Ticket? && Possible(d, Event(call, env, None))
    ensures Inv(Commit(d, PlanOf(d, call, env)))
  {
    hide Inv, PlanOnRow, FinishedOutcome;
    assert d.log + [] == d.log;
    if ValidTicket(call.fence, call.op) && Position(d.live.entries, call.fence.lease.value.entryId).Some? {
      TicketRowKeeps(d, Position(d.live.entries, call.fence.lease.value.entryId).value, call, env);
    }
  }

  lemma TicketRowKeeps(d: Disk, i: nat, call: Call, env: Env)
    requires Inv(d) && call.Ticket? && ValidTicket(call.fence, call.op) && i < |d.live.entries|
    ensures Inv(Commit(d, PlanOnRow(d.live, i, call.fence, call.op, env)))
  {
    hide Inv;
    var plan := PlanOnRow(d.live, i, call.fence, call.op, env);
    assert d.log + [] == d.log;
    if plan != Unchanged(d.live, plan.reply) {
      if call.op.Complete? {
        FinishKeeps(d, i, plan.finished[0]);
      } else {
        TicketRowOk(d, i, call, env);
        RowKeeps(d, i, plan.queue.entries[i], call, env, plan.reply);
      }
    }
  }

  lemma TicketRowOk(d: Disk, i: nat, call: Call, env: Env)
    requires Inv(d) && call.Ticket? && ValidTicket(call.fence, call.op) && i < |d.live.entries|
    ensures var plan := PlanOnRow(d.live, i, call.fence, call.op, env);
            !call.op.Complete? ==> RowOk(plan.queue.entries[i], d.live.counters)
  {
    hide Separate, Clash, Coherent;
    assert d.live.entries[i] in d.live.entries;
  }

  /** The slots of an old-style hand-out, one by one. */
  lemma {:induction false} SlotsKeep(d: Disk, call: Call, chosen: seq<nat>, n: nat, env: Env)
    requires Inv(d) && call.Lease? && n <= |chosen| <= |env.workflowIds|
    requires call.workflowIds.Some? ==> |chosen| <= |call.workflowIds.value|
    requires forall k :: 0 <= k < |chosen| ==> chosen[k] < |d.live.entries| && !Ticketed(d.live.entries[chosen[k]])
    requires forall k, l :: 0 <= k < l < |chosen| ==> chosen[k] < chosen[l]
    ensures var after := AssignSlots(d.live.entries, chosen, n, call.workflowIds, env.workflowIds, env.now,
                                     ExpiryOf(env));
            Inv(Disk(d.live.(entries := after), d.log))
  {
    hide Inv, Eligible, SlotWorkflow;
    if n > 0 {
      SlotsKeep(d, call, chosen, n - 1, env);
      SlotRows(d.live.entries, chosen, n - 1, call.workflowIds, env);
      var before := AssignSlots(d.live.entries, chosen, n - 1, call.workflowIds, env.workflowIds, env.now,
                                ExpiryOf(env));
      var i := chosen[n - 1];
      assert i !in chosen[..n - 1];
      var w := SlotWorkflow(before[i], n - 1, call.workflowIds, env.workflowIds);
      OldStyleKeeps(Disk(d.live.(entries := before), d.log), i, OldStyleAssigned(before[i], w, env.now, ExpiryOf(env)));
    }
  }

  /** Any change to an old-style row that leaves it old-style, under the same name. */
  lemma OldStyleKeeps(d: Disk, i: nat, f: Entry)
    requires Inv(d) && i < |d.live.entries| && !Ticketed(d.live.entries[i])
    requires f.workflowId.Some? && f.assignedAt.Some? && f.expiresAt.Some?
    requires f == OldStyleAssigned(d.live.entries[i], f.workflowId.value, f.assignedAt.value, f.expiresAt.value)
    ensures Inv(Disk(WithRow(d.live, i, f), d.log))
  {
    var e := d.live.entries[i];
    assert e in d.live.entries;
    ApartInherited(d, e, f);
    ReplaceKeeps(d, i, f, d.live.counters);
  }

  lemma LeaseKeeps(d: Disk, call: Call, env: Env)
    requires Inv(d) && call.Lease? && Possible(d, Event(call, env, None))
    ensures Inv(Commit(d, PlanOf(d, call, env)))
  {
    hide Inv, Choose, AssignSlots;
    assert d.log + [] == d.log;
    var plan := PlanOf(d, call, env);
    if plan != Unchanged(d.live, plan.reply) {
      var swept := SweptDisk(d, env.now);
      SweepKeeps(d, env.now);
      var chosen := Choose(swept.live.entries, 0, Subjects(call.exclude), call.max, env.now);
      ChooseBounds(swept.live.entries, 0, Subjects(call.exclude), call.max, env.now);
      ChooseRows(swept.live.entries, 0, Subjects(call.exclude), call.max, env.now);
      SlotsKeep(swept, call, chosen, |chosen|, env);
    }
  }

  lemma ReorderKeeps(d: Disk, ids: seq<string>, env: Env)
    requires Inv(d)
    ensures Inv(Commit(d, PlanReorder(d.live, ids)))
  {
    assert d.log + [] == d.log;
    InvUndamaged(d);
    ReorderMoves(d.live, ids, env);
    OrderBounds(d.live.entries, ids);
    ShrinkKeeps(d, PlanReorder(d.live, ids).queue);
  }

  lemma RowCallKeeps(d: Disk, call: Call, env: Env)
    requires Inv(d) && Possible(d, Event(call, env, None))
    requires call.Hold? || call.Release? || call.MarkAssigned? || call.ReleasePending?
    ensures Inv(Commit(d, PlanOf(d, call, env)))
  {
    hide Inv, Position, MayChange;
    var plan := PlanOf(d, call, env);
    assert d.log + [] == d.log;
    var p := Position(d.live.entries, call.id);
    if p.Some? {
      InvRow(d, p.value);
      EditIsAllowed(d.live, Recall(d, call, env), call, env, p.value);
      RowKeeps(d, p.value, plan.queue.entries[p.value], call, env, plan.reply);
    }
  }

  lemma InvRow(d: Disk, i: nat)
    requires Inv(d) && i < |d.live.entries|
    ensures RowOk(d.live.entries[i], d.live.counters)
  {
    assert d.live.entries[i] in d.live.entries;
  }

  /** Every call, run to its end, keeps the invariant. */
  lemma CallKeeps(d: Disk, call: Call, env: Env)
    requires Inv(d) && Possible(d, Event(call, env, None))
    ensures Inv(Commit(d, PlanOf(d, call, env)))
  {
    hide Inv, PlanEnqueueV2, PlanLeaseV2, PlanTicket, PlanEnqueue, PlanLease, PlanReorder, PlanRow;
    assert d.log + [] == d.log;
    match call
    case EnqueueV2(add) => EnqueueV2Keeps(d, add, env);
    case LeaseV2(lease) => LeaseV2Keeps(d, lease, env);
    case Ticket(_, _) => TicketKeeps(d, call, env);
    case Enqueue(_, _, _) => EnqueueKeeps(d, call, env);
    case Lease(_, _, _) => LeaseKeeps(d, call, env);
    case Reorder(ids) => ReorderKeeps(d, ids, env);
    case NextDeadline => SweepKeeps(d, env.now);
    case DropEntry(id) =>
      if Position(d.live.entries, id).Some? {
        FinishKeeps(d, Position(d.live.entries, id).value, PlanOf(d, call, env).finished[0]);
      }
    case Completion(id, status, workflowRef, doneBy) =>
      var p := CompletionTarget(d.live.entries, id, workflowRef, doneBy);
      if OutcomeOf(status).Some? && p.Some? {
        FinishKeeps(d, p.value, PlanOf(d, call, env).finished[0]);
      }
    case _ => RowCallKeeps(d, call, env);
  }

  /** The invariant holds along every run, whatever is called and wherever commits are interrupted. */
  lemma EventKeeps(d: Disk, ev: Event)
    requires Inv(d) && Possible(d, ev)
    ensures Inv(Next(d, ev))
  {
    hide Inv, Perform;
    CallKeeps(d, ev.call, ev.env);
    if ev.cut.Some? {
      InterruptedKeeps(d, ev);
    }
  }

  lemma InterruptedKeeps(d: Disk, ev: Event)
    requires Inv(d) && Possible(d, ev) && ev.cut.Some?
    ensures Inv(Next(d, ev))
  {
    hide Perform, RowOk, Coherent, Separate, Clash, MayChange, MayAppear;
    var plan := PlanOf(d, ev.call, ev.env);
    assert Undamaged(d.live) by { InvUndamaged(d); }
    PerformMoves(d.live, Recall(d, ev.call, ev.env), ev.call, ev.env);
    var cut := if ev.cut.value < |plan.finished| then ev.cut.value else |plan.finished|;
    forall r | r in plan.finished[..cut]
      ensures exists e :: e in d.live.entries && r.entry == Snapshot(e)
    {
      assert r in plan.finished;
      var e :| e in d.live.entries && MayFinish(ev.call, ev.env, plan.reply, e, r);
    }
    RecordsKeep(d, plan.finished[..cut]);
  }

  lemma {:induction false} RunKeeps(d: Disk, run: seq<Event>)
    requires Inv(d) && IsRun(d, run)
    ensures Inv(After(d, run))
    decreases |run|
  {
    hide Inv, Next;
    if run != [] {
      EventKeeps(d, run[0]);
      RunKeeps(Next(d, run[0]), run[1..]);
    }
  }
}
