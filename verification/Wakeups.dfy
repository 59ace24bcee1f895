/** The expiry sweep, and the instant `next_deadline` tells the daemon to wake up at. */
module Wakeups {
  import opened Wrappers
  import opened QueueState
  import opened QueueHistory
  import opened QueueService
  import opened Machine
  import opened Effects

  // ---------------------------------------------------------------------
  // The sweep
  // ---------------------------------------------------------------------

  /** `all` is made of `left` and `right`, each in its own order. */
  ghost predicate Interleaves(left: seq<Entry>, right: seq<Entry>, all: seq<Entry>)
    decreases |all|
  {
    if all == [] then left == [] && right == []
    else
      var n := |all| - 1;
      || (left != [] && left[|left| - 1] == all[n] && Interleaves(left[..|left| - 1], right, all[..n]))
      || (right != [] && right[|right| - 1] == all[n] && Interleaves(left, right[..|right| - 1], all[..n]))
  }

  lemma {:induction false} InterleaveLeft(left: seq<Entry>, right: seq<Entry>, all: seq<Entry>, e: Entry)
    requires Interleaves(left, right, all)
    ensures Interleaves(left + [e], right, all + [e])
    ensures Interleaves(left, right + [e], all + [e])
  {
    assert (all + [e])[..|all|] == all;
    assert (left + [e])[..|left|] == left;
    assert (right + [e])[..|right|] == right;
  }

  /** A sweep splits the rows into those kept and those recorded, both in queue order; no row is lost or made up. */
  lemma {:induction false} SweepInterleaves(entries: seq<Entry>, now: Instant)
    ensures Interleaves(Kept(entries, now), Swept(entries, now), entries)
  {
    hide Expired, Interleaves, Kept, Swept;
    if entries == [] {
      EmptyInterleaves();
      NothingToSweep(now);
    } else {
      var n := |entries| - 1;
      SweepInterleaves(entries[..n], now);
      assert entries == entries[..n] + [entries[n]];
      InterleaveLeft(Kept(entries[..n], now), Swept(entries[..n], now), entries[..n], entries[n]);
      LastRow(entries, now);
    }
  }

  lemma EmptyInterleaves()
    ensures Interleaves([], [], [])
  {
  }

  /** A waiting row whose window has passed: `run_at` plus the window is a time, and it is over. */
  ghost predicate PastWindow(e: Entry, now: Instant) {
    && e.status == Pending && e.expireAfter.Some? && e.runAt.Some? && e.runAt.value.instant.Some?
    && e.expireAfter.value <= 9_223_372_036_854_775
    && var deadline := e.runAt.value.instant.value + e.expireAfter.value * 1_000_000_000;
       deadline <= LAST_INSTANT && deadline < now
  }

  /** The sweep drops exactly the rows past their window, ticketed or not, each with its record; it keeps all others. */
  lemma SweepIsExact(q: Queue, now: Instant, e: Entry)
    requires e in q.entries
    ensures e in SweepQueue(q, now).entries <==> !PastWindow(e, now)
    ensures PastWindow(e, now) ==> Record(Dropped, now, "expiry-sweep", e.(dispatch := None)) in SweepFinished(q, now)
  {
    SweptOrKept(q.entries, now, e);
  }

  /** Every record of a sweep is of a row past its window; so no row is dropped before it was due. */
  lemma DroppedOnlyLate(q: Queue, now: Instant, r: Record)
    requires r in SweepFinished(q, now)
    ensures exists e :: && e in q.entries && PastWindow(e, now)
                        && r == Record(Dropped, now, "expiry-sweep", e.(dispatch := None))
                        && e.runAt.value.instant.value < now
  {
    var e := SweepRecordOf(q.entries, now, r);
  }

  /** Sweeping again later leaves what one later sweep leaves: in particular a sweep is idempotent at a fixed time. */
  lemma {:induction false} SweepAgain(entries: seq<Entry>, first: Instant, second: Instant)
    requires first <= second
    ensures Kept(Kept(entries, first), second) == Kept(entries, second)
    ensures first == second ==> Swept(Kept(entries, first), second) == []
  {
    hide Kept, Swept;
    if entries == [] {
      NothingToSweep(first);
      NothingToSweep(second);
    } else {
      var n := |entries| - 1;
      var e := entries[n];
      SweepAgain(entries[..n], first, second);
      LastRow(entries, first);
      LastRow(entries, second);
      if !Expired(e, first) {
        var kept := Kept(entries[..n], first) + [e];
        assert kept[..|kept| - 1] == Kept(entries[..n], first);
        LastRow(kept, second);
      }
    }
  }

  // ---------------------------------------------------------------------
  // The next wake-up
  // ---------------------------------------------------------------------

  /** The waiting rows whose time has come at `t`. */
  ghost function DueSet(entries: seq<Entry>, t: Instant): set<Entry> {
    set e | e in entries && e.status == Pending
            && (e.runAt.Some? && e.runAt.value.instant.Some? ==> e.runAt.value.instant.value <= t)
  }

  /** These are the rows both hand-outs call due. */
  lemma DueIs(e: Entry, t: Instant)
    ensures Due(e, t) <==>
              e.status == Pending && (e.runAt.Some? && e.runAt.value.instant.Some? ==> e.runAt.value.instant.value <= t)
  {
  }

  /**
   * `next_deadline` replies an instant after `now` up to which no further row becomes due and at which one does, or
   * nothing when no row ever will.
   */
  lemma WakeUpIsExact(q: Queue, past: Option<Record>, env: Env)
    ensures var reply := Perform(q, past, NextDeadline, env).reply;
            var entries := Kept(q.entries, env.now);
            && reply.Deadline?
            && (reply.at.Some? ==>
                  && env.now < reply.at.value
                  && (forall t :: env.now <= t < reply.at.value ==> DueSet(entries, t) == DueSet(entries, env.now))
                  && DueSet(entries, env.now) < DueSet(entries, reply.at.value))
            && (reply.at.None? ==> forall t :: env.now <= t ==> DueSet(entries, t) == DueSet(entries, env.now))
  {
    hide Kept;
    var entries := Kept(q.entries, env.now);
    var next := NextRunAt(entries, env.now);
    forall t, e | env.now <= t && (next.Some? ==> t < next.value) && e in entries
      ensures e in DueSet(entries, t) <==> e in DueSet(entries, env.now)
    {
      DueIs(e, t);
      DueIs(e, env.now);
    }
    if next.Some? {
      var e :| e in entries && e.status == Pending && ParsedRunAt(e) == next;
      assert e in DueSet(entries, next.value) && e !in DueSet(entries, env.now);
    }
  }

  /** The sweep before the answer is saved whenever it dropped anything, so the answer is about the saved queue. */
  lemma WakeUpIsSaved(q: Queue, past: Option<Record>, env: Env)
    ensures var plan := Perform(q, past, NextDeadline, env);
            plan.queue.entries == Kept(q.entries, env.now) && plan.finished == SweepFinished(q, env.now)
  {
    hide Kept, Swept;
    if SweepFinished(q, env.now) == [] {
      NothingSwept(q.entries, env.now);
    }
  }
}
