/** Idempotency keys are remembered for ever. */
module Idempotency {
  import opened Wrappers
  import opened QueueState
  import opened QueueHistory
  import opened QueueService
  import opened FencedQueue
  import opened Machine
  import opened Effects
  import opened Invariant
  import opened Runs
  import opened Fencing

  lemma {:induction false} ExtraPrefix(a: seq<Binding>, b: seq<Binding>, key: string)
    requires a <= b && ExtraHash(a, key).Some?
    ensures ExtraHash(b, key) == ExtraHash(a, key)
  {
    if a[0].key != key {
      ExtraPrefix(a[1..], b[1..], key);
    }
  }

  /** A later version of a row keeps every key with its hash. */
  lemma KeysKept(a: Entry, b: Entry, key: string)
    requires Grows(a, b) && HoldsKey(a, key)
    ensures BoundHash(b, key) == BoundHash(a, key)
  {
    if a.key != Some(key) {
      ExtraPrefix(a.extraKeys, b.extraKeys, key);
    }
  }

  /** `key` is bound to content `hash` on entry `id`, which is `subject`. */
  ghost predicate KeyBound(d: Disk, key: string, hash: string, id: string, subject: SubjectGeneration) {
    && Version(d, id).Some?
    && var e := Version(d, id).value;
       && BoundHash(e, key) == Some(hash)
       && e.subject == Some(subject.qualifiedId) && e.subjectGen == Some(subject.generation)
  }

  lemma KeyStaysBound(d: Disk, after: Disk, key: string, hash: string, id: string, subject: SubjectGeneration)
    requires Advances(d, after) && KeyBound(d, key, hash, id, subject)
    ensures KeyBound(after, key, hash, id, subject)
  {
    hide Grows;
    VersionAdvances(d, after, id);
    KeysKept(Version(d, id).value, Version(after, id).value, key);
    TicketedKept(Version(d, id).value, Version(after, id).value);
  }

  lemma TicketedKept(a: Entry, b: Entry)
    requires Grows(a, b) && Ticketed(a)
    ensures b.subject == a.subject && b.subjectGen == a.subjectGen
  {
  }

  // ---------------------------------------------------------------------
  // Finding the holder
  // ---------------------------------------------------------------------

  /** Two records that hold a key belong to one entry. */
  lemma OneRecordHolder(d: Disk, i: nat, j: nat, key: string)
    requires Inv(d) && i < |d.log| && j < |d.log|
    requires HoldsKey(d.log[i].entry, key) && HoldsKey(d.log[j].entry, key)
    ensures d.log[i].entry.id == d.log[j].entry.id
  {
    hide Grows, RowOk, SameNumber;
    if i < j {
      assert Coherent(d.log[i].entry, d.log[j].entry);
    } else if j < i {
      assert Coherent(d.log[j].entry, d.log[i].entry);
    }
  }

  /** The last record with the key is the last record of its entry. */
  lemma LastForKeyIsDone(d: Disk, key: string, x: Record)
    requires Inv(d) && LastForKey(d.log, key) == Some(x)
    ensures LastForEntry(d.log, x.entry.id) == Some(x) && HoldsKey(x.entry, key)
  {
    hide Grows, RowOk, Separate;
    var i := LastIndex(d.log, (r: Record) => HoldsKey(r.entry, key)).value;
    var j := LastIndex(d.log, (r: Record) => r.entry.id == x.entry.id).value;
    if i < j {
      assert Coherent(d.log[i].entry, d.log[j].entry);
      KeysKept(d.log[i].entry, d.log[j].entry, key);
    }
  }

  /** A record that holds a key nobody in the queue holds: its entry is done, and this is its last record. */
  lemma PastHolder(d: Disk, key: string, x: Record)
    requires Inv(d) && LastForKey(d.log, key) == Some(x)
    requires forall e :: e in d.live.entries ==> !HoldsKey(e, key)
    ensures IsDone(d, x.entry.id) && DoneRecord(d, x.entry.id) == x && HoldsKey(x.entry, key)
  {
    hide Grows, RowOk, Separate, SameNumber;
    LastForKeyIsDone(d, key, x);
    if IsLive(d, x.entry.id) {
      var e := LiveRow(d, x.entry.id);
      LastForEntryIs(d.log, x.entry.id);
      assert Coherent(x.entry, e);
      KeysKept(x.entry, e, key);
      assert false;
    }
  }

  lemma SnapshotKeys(e: Entry, key: string)
    ensures BoundHash(Snapshot(e), key) == BoundHash(e, key)
  {
  }

  /** Nobody in the queue holds the key, once neither the kept nor the swept rows do. */
  lemma NobodyHoldsNow(q: Queue, now: Instant, key: string)
    requires CurrentHolder(SweepQueue(q, now).entries, SweepFinished(q, now), key).None?
    ensures forall e :: e in q.entries ==> !HoldsKey(e, key)
  {
    forall e | e in q.entries
      ensures !HoldsKey(e, key)
    {
      SweptOrKept(q.entries, now, e);
      SnapshotKeys(e, key);
      if Expired(e, now) {
        assert SweepRecord(e, now) in SweepFinished(q, now);
      } else {
        assert e in SweepQueue(q, now).entries;
      }
    }
  }

  function HolderOf(d: Disk, add: AddRequest, env: Env): Option<Entry> {
    Holder(SweepQueue(d.live, env.now), SweepFinished(d.live, env.now), Recall(d, EnqueueV2(add), env), TrimmedKey(add))
  }

  lemma CurrentIsLive(d: Disk, now: Instant, key: string)
    requires UniqueIds(d.live.entries)
    requires CurrentHolder(SweepQueue(d.live, now).entries, SweepFinished(d.live, now), key).Some?
    ensures var h := CurrentHolder(SweepQueue(d.live, now).entries, SweepFinished(d.live, now), key).value;
            Version(d, h.id) == Some(Snapshot(h)) && HoldsKey(h, key)
  {
    var p := KeyHolder(SweepQueue(d.live, now).entries, key);
    if p.Some? {
      var e := SweepQueue(d.live, now).entries[p.value];
      assert e in SweepQueue(d.live, now).entries;
      LiveIs(d, e);
    } else {
      var h := SweptHolder(SweepFinished(d.live, now), key).value;
      var r :| r in SweepFinished(d.live, now) && r.entry == h;
      var e := SweepRecordOf(d.live.entries, now, r);
      LiveIs(d, e);
    }
  }

  /** The row an add finds for its key is the current version of its entry. */
  lemma HolderIsVersion(d: Disk, add: AddRequest, env: Env)
    requires Inv(d) && HolderOf(d, add, env).Some?
    ensures var h := HolderOf(d, add, env).value;
            Version(d, h.id) == Some(Snapshot(h)) && HoldsKey(h, TrimmedKey(add).value)
  {
    hide Inv, CurrentHolder, SweepQueue, SweepFinished, LastForKey, Version, HoldsKey;
    var key := TrimmedKey(add).value;
    UniqueLive(d);
    if CurrentHolder(SweepQueue(d.live, env.now).entries, SweepFinished(d.live, env.now), key).Some? {
      CurrentIsLive(d, env.now, key);
    } else {
      NobodyHoldsNow(d.live, env.now, key);
      PastIsVersion(d, key);
    }
  }

  lemma PastIsVersion(d: Disk, key: string)
    requires Inv(d) && LastForKey(d.log, key).Some?
    requires forall e :: e in d.live.entries ==> !HoldsKey(e, key)
    ensures var h := LastForKey(d.log, key).value.entry;
            Version(d, h.id) == Some(Snapshot(h)) && HoldsKey(h, key)
  {
    var x := LastForKey(d.log, key).value;
    PastHolder(d, key, x);
    LastForEntryIs(d.log, x.entry.id);
  }

  /** A bound key is found. */
  lemma BoundIsFound(d: Disk, add: AddRequest, env: Env, hash: string, id: string, subject: SubjectGeneration)
    requires Inv(d) && TrimmedKey(add).Some? && KeyBound(d, TrimmedKey(add).value, hash, id, subject)
    ensures HolderOf(d, add, env).Some? && HolderOf(d, add, env).value.id == id
  {
    hide Inv, CurrentHolder, SweepQueue, SweepFinished, LastForKey;
    var key := TrimmedKey(add).value;
    if HolderOf(d, add, env).None? {
      NobodyHoldsNow(d.live, env.now, key);
      NoRecordHolds(d, key, id);
      assert false;
    }
    HolderIsVersion(d, add, env);
    var h := HolderOf(d, add, env).value;
    OneHolder(d, key, id, h.id);
  }

  lemma NoRecordHolds(d: Disk, key: string, id: string)
    requires LastForKey(d.log, key).None?
    requires forall e :: e in d.live.entries ==> !HoldsKey(e, key)
    ensures Version(d, id).Some? ==> !HoldsKey(Version(d, id).value, key)
  {
    if IsLive(d, id) {
      SnapshotKeys(LiveRow(d, id), key);
    } else {
      LastForEntryIs(d.log, id);
    }
  }

  /** A key has one holder. */
  lemma OneHolder(d: Disk, key: string, a: string, b: string)
    requires Inv(d) && Version(d, a).Some? && Version(d, b).Some?
    requires HoldsKey(Version(d, a).value, key) && HoldsKey(Version(d, b).value, key)
    ensures a == b
  {
    hide Inv, HoldsKey, Coherent, Separate, LastForEntry;
    if a != b {
      if IsLive(d, b) {
        HeldApart(d, a, LiveRow(d, b), key);
        SnapshotKeys(LiveRow(d, b), key);
        SnapshotHolds(LiveRow(d, b), key);
      } else if IsLive(d, a) {
        HeldApart(d, b, LiveRow(d, a), key);
        SnapshotHolds(LiveRow(d, a), key);
      } else {
        DoneApart(d, a, b, key);
      }
    }
  }

  lemma SnapshotHolds(e: Entry, key: string)
    ensures HoldsKey(Snapshot(e), key) <==> HoldsKey(e, key)
  {
  }

  /** A live row holds no key of another entry. */
  lemma HeldApart(d: Disk, id: string, e: Entry, key: string)
    requires Inv(d) && Version(d, id).Some? && HoldsKey(Version(d, id).value, key)
    requires e in d.live.entries && e.id != id
    ensures !HoldsKey(e, key)
  {
    hide Grows, RowOk, SameNumber;
    if IsLive(d, id) {
      SnapshotHolds(LiveRow(d, id), key);
      assert Separate(LiveRow(d, id), e);
    } else {
      LastForEntryIs(d.log, id);
      assert Coherent(DoneRecord(d, id).entry, e);
    }
  }

  lemma DoneApart(d: Disk, a: string, b: string, key: string)
    requires Inv(d) && IsDone(d, a) && IsDone(d, b)
    requires HoldsKey(DoneRecord(d, a).entry, key) && HoldsKey(DoneRecord(d, b).entry, key)
    ensures a == b
  {
    hide Inv, HoldsKey;
    LastForEntryIs(d.log, a);
    LastForEntryIs(d.log, b);
    var i :| 0 <= i < |d.log| && d.log[i] == DoneRecord(d, a);
    var j :| 0 <= j < |d.log| && d.log[j] == DoneRecord(d, b);
    OneRecordHolder(d, i, j, key);
  }

  // ---------------------------------------------------------------------
  // Accepted keys
  // ---------------------------------------------------------------------

  /** An add with a key was accepted: the reply is a receipt, and the commit was not interrupted. */
  ghost predicate Accepts(d: Disk, ev: Event, key: string) {
    && Supplied(ev.call, ev.env)
    && ev.cut.None? && ev.call.EnqueueV2? && TrimmedKey(ev.call.add) == Some(key)
    && PlanOf(d, ev.call, ev.env).reply.Receipt?
  }

  /** Acceptance binds the key to the replied entry and to the sent content. */
  lemma AcceptBinds(d: Disk, ev: Event, key: string)
    requires Inv(d) && Possible(d, ev) && Accepts(d, ev, key)
    ensures var reply := PlanOf(d, ev.call, ev.env).reply;
            KeyBound(Next(d, ev), key, ev.call.add.hash, reply.entryId, reply.subject)
  {
    hide Inv, PlanNewAdd, CurrentHolder, SweepQueue, SweepFinished, LastForKey, Advances, KeyBound;
    var add := ev.call.add;
    EventKeeps(d, ev);
    if HolderOf(d, add, ev.env).Some? {
      HolderIsVersion(d, add, ev.env);
      ReceiptBound(d, add, ev.env, key);
      EventAdvances(d, ev);
      KeyStaysBound(d, Next(d, ev), key, add.hash, HolderOf(d, add, ev.env).value.id,
                    PlanOf(d, ev.call, ev.env).reply.subject);
    } else {
      NewAddBinds(d, ev, key);
    }
  }

  lemma ReceiptBound(d: Disk, add: AddRequest, env: Env, key: string)
    requires TrimmedKey(add) == Some(key) && HolderOf(d, add, env).Some?
    requires ReceiptFor(HolderOf(d, add, env).value, key, add.hash).Receipt?
    requires Version(d, HolderOf(d, add, env).value.id) == Some(Snapshot(HolderOf(d, add, env).value))
    ensures KeyBound(d, key, add.hash, HolderOf(d, add, env).value.id,
                     ReceiptFor(HolderOf(d, add, env).value, key, add.hash).subject)
  {
    SnapshotKeys(HolderOf(d, add, env).value, key);
  }

  /** The row a new key lands on. */
  lemma NewAddBinds(d: Disk, ev: Event, key: string)
    requires Inv(d) && Possible(d, ev) && Accepts(d, ev, key) && HolderOf(d, ev.call.add, ev.env).None?
    requires Inv(Next(d, ev))
    ensures var reply := PlanOf(d, ev.call, ev.env).reply;
            KeyBound(Next(d, ev), key, ev.call.add.hash, reply.entryId, reply.subject)
  {
    hide Inv, CurrentHolder, Recall, SweepFinished, LastForKey, NextGeneration, HighestTicketed, FirstWaiting;
    var add := ev.call.add;
    var plan := PlanOf(d, ev.call, ev.env);
    var swept := SweepQueue(d.live, ev.env.now);
    var live := LiveEntryForSubject(swept.entries, add.dispatch.canonicalId.value);
    UniqueLive(Next(d, ev));
    var i := if live.Some? then live.value else |swept.entries|;
    var f := plan.queue.entries[i];
    LiveIs(Next(d, ev), f);
    SnapshotKeys(f, key);
    if live.Some? {
      var e := EnsureIdentity(swept, i).value.queue.entries[i];
      SweptKey(d, add, ev.env, i, key);
      ExtraAppended(e.extraKeys, Binding(key, add.hash), key);
    }
  }

  /** Before its key is bound, the row an add gets back does not hold it. */
  lemma SweptKey(d: Disk, add: AddRequest, env: Env, i: nat, key: string)
    requires HolderOf(d, add, env).None? && TrimmedKey(add) == Some(key)
    requires i < |SweepQueue(d.live, env.now).entries| && EnsureIdentity(SweepQueue(d.live, env.now), i).Some?
    ensures !HoldsKey(EnsureIdentity(SweepQueue(d.live, env.now), i).value.queue.entries[i], key)
  {
    hide NextGeneration, SweepQueue, SweepFinished, LastForKey;
    var q := SweepQueue(d.live, env.now);
    assert BoundHash(EnsureIdentity(q, i).value.queue.entries[i], key) == BoundHash(q.entries[i], key);
  }

  /**
   * Once an add with a key was accepted, every later acceptable add with that key gets the same entry and subject
   * generation back and creates nothing when it sends the same content, and is refused when it sends other content:
   * while the entry lives, when this very call sweeps it, after it finished, and across interrupted commits.
   */
  lemma KeyRemembered(d: Disk, ev: Event, run: seq<Event>, key: string, again: AddRequest, env: Env)
    requires Inv(d) && Possible(d, ev) && Accepts(d, ev, key) && IsRun(Next(d, ev), run)
    requires Acceptable(again) && TrimmedKey(again) == Some(key)
    ensures var first := PlanOf(d, ev.call, ev.env).reply;
            var after := After(Next(d, ev), run);
            var plan := PlanOf(after, EnqueueV2(again), env);
            if again.hash == ev.call.add.hash
            then && plan.reply == Receipt(false, first.entryId, first.subject, false)
                 && plan.queue == Queue(Kept(after.live.entries, env.now), after.live.counters)
                 && plan.finished == SweepFinished(after.live, env.now)
            else plan == Unchanged(after.live, InvalidParams)
  {
    hide Inv, Next, PlanOf, KeyBound, Advances;
    var first := PlanOf(d, ev.call, ev.env).reply;
    var after := After(Next(d, ev), run);
    AcceptBinds(d, ev, key);
    EventKeeps(d, ev);
    RunAdvances(Next(d, ev), run);
    KeyStaysBound(Next(d, ev), after, key, ev.call.add.hash, first.entryId, first.subject);
    BoundReply(after, again, env, ev.call.add.hash, first.entryId, first.subject);
  }

  /** What an acceptable add with a bound key gets. */
  lemma BoundReply(d: Disk, add: AddRequest, env: Env, hash: string, id: string, subject: SubjectGeneration)
    requires Inv(d) && Acceptable(add) && TrimmedKey(add).Some?
    requires KeyBound(d, TrimmedKey(add).value, hash, id, subject)
    ensures var plan := PlanOf(d, EnqueueV2(add), env);
            if add.hash == hash
            then && plan.reply == Receipt(false, id, subject, false)
                 && plan.queue == Queue(Kept(d.live.entries, env.now), d.live.counters)
                 && plan.finished == SweepFinished(d.live, env.now)
            else plan == Unchanged(d.live, InvalidParams)
  {
    hide Inv, CurrentHolder, SweepFinished, LastForKey, PlanNewAdd;
    var key := TrimmedKey(add).value;
    BoundIsFound(d, add, env, hash, id, subject);
    HolderIsVersion(d, add, env);
    SnapshotKeys(HolderOf(d, add, env).value, key);
    if SweepFinished(d.live, env.now) == [] {
      NoneSwept(d.live, env.now);
    }
  }

  /** An add never meets a key whose entry has no subject generation: that error is unreachable. */
  lemma NoLostGeneration(d: Disk, add: AddRequest, env: Env)
    requires Inv(d)
    ensures PlanOf(d, EnqueueV2(add), env).reply != BackendError
  {
    hide Inv, CurrentHolder, SweepFinished, LastForKey, NextGeneration;
    if HolderOf(d, add, env).Some? {
      HolderIsVersion(d, add, env);
      var h := HolderOf(d, add, env).value;
      VersionOk(d, h.id);
      HolderTicketed(h, TrimmedKey(add).value, d.live.counters);
    }
  }

  lemma HolderTicketed(h: Entry, key: string, counters: map<string, nat>)
    requires RowOk(Snapshot(h), counters) && HoldsKey(h, key)
    ensures h.subject.Some? && h.subjectGen.Some?
  {
  }
}
