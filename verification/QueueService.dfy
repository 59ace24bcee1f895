/** What the old-style calls of src/queue_service.rs do to a loaded queue. */
module QueueService {
  import opened Wrappers
  import opened QueueState
  import opened QueueHistory

  // ---------------------------------------------------------------------
  // The expiry sweep
  // ---------------------------------------------------------------------

  predicate Expired(e: Entry, now: Instant) {
    e.status == Pending && ExpiryDeadline(e).Some? && now > ExpiryDeadline(e).value
  }

  function SweepRecord(e: Entry, now: Instant): Record {
    Finished(e, Dropped, "expiry-sweep", now)
  }

  function Kept(entries: seq<Entry>, now: Instant): (kept: seq<Entry>)
    ensures forall e :: e in kept <==> e in entries && !Expired(e, now)
  {
    if entries == [] then []
    else
      var last := entries[|entries| - 1];
      Kept(entries[..|entries| - 1], now) + if Expired(last, now) then [] else [last]
  }

  function Swept(entries: seq<Entry>, now: Instant): (swept: seq<Entry>)
    ensures forall e :: e in swept <==> e in entries && Expired(e, now)
  {
    if entries == [] then []
    else
      var last := entries[|entries| - 1];
      Swept(entries[..|entries| - 1], now) + if Expired(last, now) then [last] else []
  }

  function SweepRecords(swept: seq<Entry>, now: Instant): (records: seq<Record>)
    ensures |records| == |swept|
    ensures forall i :: 0 <= i < |swept| ==> records[i] == SweepRecord(swept[i], now)
  {
    seq(|swept|, i requires 0 <= i < |swept| => SweepRecord(swept[i], now))
  }

  function SweepQueue(q: Queue, now: Instant): Queue {
    q.(entries := Kept(q.entries, now))
  }

  function SweepFinished(q: Queue, now: Instant): seq<Record> {
    SweepRecords(Swept(q.entries, now), now)
  }

  /** What the last row adds to a sweep. */
  lemma LastRow(entries: seq<Entry>, now: Instant)
    requires entries != []
    ensures var n := |entries| - 1;
            if Expired(entries[n], now)
            then && Kept(entries, now) == Kept(entries[..n], now)
                 && Swept(entries, now) == Swept(entries[..n], now) + [entries[n]]
            else && Kept(entries, now) == Kept(entries[..n], now) + [entries[n]]
                 && Swept(entries, now) == Swept(entries[..n], now)
  {
    var n := |entries| - 1;
    assert Kept(entries[..n], now) + [] == Kept(entries[..n], now);
    assert Swept(entries[..n], now) + [] == Swept(entries[..n], now);
  }

  lemma NothingToSweep(now: Instant)
    ensures Kept([], now) == [] && Swept([], now) == []
  {
  }

  lemma RecordsAppended(swept: seq<Entry>, e: Entry, now: Instant)
    ensures SweepRecords(swept + [e], now) == SweepRecords(swept, now) + [SweepRecord(e, now)]
  {
  }

  lemma {:induction false} NothingSwept(entries: seq<Entry>, now: Instant)
    requires Swept(entries, now) == []
    ensures Kept(entries, now) == entries
  {
    hide Expired, Kept, Swept;
    if entries == [] {
      NothingToSweep(now);
    } else {
      var n := |entries| - 1;
      LastRow(entries, now);
      if Expired(entries[n], now) {
        EndsIn(Swept(entries[..n], now), entries[n]);
      }
      NothingSwept(entries[..n], now);
      assert entries == entries[..n] + [entries[n]];
    }
  }

  lemma EndsIn(rows: seq<Entry>, e: Entry)
    ensures rows + [e] != []
  {
  }

  /** A sweep that records nothing drops nothing. */
  lemma NoneSwept(q: Queue, now: Instant)
    requires SweepFinished(q, now) == []
    ensures Kept(q.entries, now) == q.entries && SweepQueue(q, now) == q
  {
    NothingSwept(q.entries, now);
  }

  // ---------------------------------------------------------------------
  // Old-style hand-out
  // ---------------------------------------------------------------------

  predicate Due(e: Entry, now: Instant) {
    e.status == Pending && !IsDeferred(e, now)
  }

  /** An old-style row the old-style hand-out may give: due, or running past its expiry. */
  predicate Eligible(e: Entry, now: Instant) {
    && !Ticketed(e)
    && e.dispatch.Some?
    && (Due(e, now) || (e.status == Assigned && e.expiresAt.Some? && e.expiresAt.value < now))
  }

  /** The rows handed out from position `i` on, skipping subjects in `exclude`. */
  function Choose(entries: seq<Entry>, i: nat, exclude: set<string>, room: nat, now: Instant): seq<nat>
    decreases |entries| - i
  {
    if room == 0 || |entries| <= i then []
    else if Eligible(entries[i], now) && SubjectIdRef(entries[i]) !in exclude then
      [i] + Choose(entries, i + 1, exclude + {SubjectIdRef(entries[i])}, room - 1, now)
    else Choose(entries, i + 1, exclude, room, now)
  }

  function Subjects(exclude: seq<string>): set<string> {
    set s: string | s in exclude
  }

  lemma ChooseBounds(entries: seq<Entry>, i: nat, exclude: set<string>, room: nat, now: Instant)
    ensures var chosen := Choose(entries, i, exclude, room, now);
            |chosen| <= room && forall k :: 0 <= k < |chosen| ==> i <= chosen[k] < |entries|
    decreases |entries| - i
  {
  }

  lemma ChooseStep(entries: seq<Entry>, i: nat, exclude: set<string>, room: nat, now: Instant)
    requires i < |entries|
    ensures Choose(entries, i, exclude, room, now)
            == if room == 0 then []
               else if Eligible(entries[i], now) && SubjectIdRef(entries[i]) !in exclude then
                 [i] + Choose(entries, i + 1, exclude + {SubjectIdRef(entries[i])}, room - 1, now)
               else Choose(entries, i + 1, exclude, room, now)
  {
  }

  lemma ChooseEnds(entries: seq<Entry>, exclude: set<string>, now: Instant)
    ensures forall room: nat :: Choose(entries, |entries|, exclude, room, now) == []
  {
  }

  function OldStyleAssigned(e: Entry, workflowId: string, now: Instant, expires: Instant): Entry {
    e.(status := Assigned, workflowId := Some(workflowId), owner := Some(workflowId),
       expiresAt := Some(expires), assignedAt := Some(now))
  }

  /** The workflow id of slot `slot`: the row's own, the caller's, or a fresh one. */
  function SlotWorkflow(e: Entry, slot: nat, workflowIds: Option<seq<string>>, uuids: seq<string>): string
    requires slot < |uuids|
    requires workflowIds.Some? ==> slot < |workflowIds.value|
  {
    if NonEmpty(e.workflowId).Some? then e.workflowId.value
    else if workflowIds.Some? then workflowIds.value[slot]
    else uuids[slot]
  }

  /** The rows after the first `n` chosen ones are handed out. */
  function AssignSlots(entries: seq<Entry>, chosen: seq<nat>, n: nat, workflowIds: Option<seq<string>>,
                       uuids: seq<string>, now: Instant, expires: Instant): (after: seq<Entry>)
    requires n <= |chosen| <= |uuids|
    requires workflowIds.Some? ==> |chosen| <= |workflowIds.value|
    requires forall k :: 0 <= k < |chosen| ==> chosen[k] < |entries|
    ensures |after| == |entries|
  {
    if n == 0 then entries
    else
      var before := AssignSlots(entries, chosen, n - 1, workflowIds, uuids, now, expires);
      var i := chosen[n - 1];
      before[i := OldStyleAssigned(before[i], SlotWorkflow(before[i], n - 1, workflowIds, uuids), now, expires)]
  }

  // ---------------------------------------------------------------------
  // Reorder
  // ---------------------------------------------------------------------

  /** The first row with this id that was not moved yet. */
  function FirstFree(entries: seq<Entry>, id: string, consumed: set<nat>, i: nat): (p: Option<nat>)
    decreases |entries| - i
    ensures p.Some? ==> i <= p.value < |entries| && entries[p.value].id == id && p.value !in consumed
    ensures p.None? ==> forall j :: i <= j < |entries| && j !in consumed ==> entries[j].id != id
  {
    if |entries| <= i then None
    else if i !in consumed && entries[i].id == id then Some(i)
    else FirstFree(entries, id, consumed, i + 1)
  }

  /** The positions the named rows come from, in the order requested. */
  function Pulled(entries: seq<Entry>, ids: seq<string>, consumed: set<nat>): seq<nat> {
    if ids == [] then []
    else
      var p := FirstFree(entries, ids[0], consumed, 0);
      if p.None? then Pulled(entries, ids[1..], consumed)
      else [p.value] + Pulled(entries, ids[1..], consumed + {p.value})
  }

  /** The positions from `i` to `n` that are not consumed. */
  function Rest(consumed: set<nat>, i: nat, n: nat): seq<nat>
    decreases n - i
  {
    if n <= i then [] else (if i in consumed then [] else [i]) + Rest(consumed, i + 1, n)
  }

  function SetOf(positions: seq<nat>): set<nat> {
    set p | p in positions
  }

  /** Where each row of the reordered queue comes from. */
  function NewOrder(entries: seq<Entry>, ids: seq<string>): seq<nat> {
    var pulled := Pulled(entries, ids, {});
    pulled + Rest(SetOf(pulled), 0, |entries|)
  }

  lemma PulledBounds(entries: seq<Entry>, ids: seq<string>, consumed: set<nat>)
    ensures var pulled := Pulled(entries, ids, consumed);
            && (forall p :: p in pulled ==> p < |entries| && p !in consumed)
            && |SetOf(pulled)| == |pulled|
  {
    if ids != [] {
      var p := FirstFree(entries, ids[0], consumed, 0);
      if p.Some? {
        PulledBounds(entries, ids[1..], consumed + {p.value});
        var rest := Pulled(entries, ids[1..], consumed + {p.value});
        assert SetOf([p.value] + rest) == {p.value} + SetOf(rest);
      } else {
        PulledBounds(entries, ids[1..], consumed);
      }
    }
  }

  lemma RestBounds(consumed: set<nat>, i: nat, n: nat)
    requires i <= n
    ensures forall p :: p in Rest(consumed, i, n) <==> i <= p < n && p !in consumed
    ensures |Rest(consumed, i, n)| + |set p | p in consumed && i <= p < n| == n - i
    decreases n - i
  {
    if i < n {
      RestBounds(consumed, i + 1, n);
      var tail := set p | p in consumed && i + 1 <= p < n;
      assert (set p | p in consumed && i <= p < n) == if i in consumed then {i} + tail else tail;
    } else {
      assert (set p | p in consumed && i <= p < n) == {};
    }
  }

  /** The new order names every position once. */
  lemma OrderBounds(entries: seq<Entry>, ids: seq<string>)
    ensures var order := NewOrder(entries, ids);
            && |order| == |entries|
            && (forall k :: 0 <= k < |order| ==> order[k] < |entries|)
            && (forall p: nat :: p in order <==> p < |entries|)
  {
    var pulled := Pulled(entries, ids, {});
    PulledBounds(entries, ids, {});
    RestBounds(SetOf(pulled), 0, |entries|);
    assert (set p | p in SetOf(pulled) && 0 <= p < |entries|) == SetOf(pulled);
    var order := NewOrder(entries, ids);
    forall k | 0 <= k < |order|
      ensures order[k] < |entries|
    {
      assert order[k] in order;
    }
  }

  /** ... and no position twice. */
  lemma OrderDistinct(entries: seq<Entry>, ids: seq<string>)
    ensures var order := NewOrder(entries, ids);
            forall k, l :: 0 <= k < l < |order| ==> order[k] != order[l]
  {
    var pulled := Pulled(entries, ids, {});
    PulledDistinct(entries, ids, {}, pulled);
    RestBounds(SetOf(pulled), 0, |entries|);
    RestIncreases(SetOf(pulled), 0, |entries|);
    var rest := Rest(SetOf(pulled), 0, |entries|);
    forall k, l | 0 <= k < l < |pulled + rest|
      ensures (pulled + rest)[k] != (pulled + rest)[l]
    {
      if l < |pulled| {
        assert pulled[k] != pulled[l];
      } else if k < |pulled| {
        assert rest[l - |pulled|] in rest && pulled[k] in SetOf(pulled);
      } else {
        assert rest[k - |pulled|] < rest[l - |pulled|];
      }
    }
  }

  lemma PulledDistinct(entries: seq<Entry>, ids: seq<string>, consumed: set<nat>, pulled: seq<nat>)
    requires pulled == Pulled(entries, ids, consumed)
    ensures forall k, l :: 0 <= k < l < |pulled| ==> pulled[k] != pulled[l]
  {
    if ids != [] {
      var p := FirstFree(entries, ids[0], consumed, 0);
      if p.Some? {
        PulledDistinct(entries, ids[1..], consumed + {p.value}, pulled[1..]);
        PulledBounds(entries, ids[1..], consumed + {p.value});
      } else {
        PulledDistinct(entries, ids[1..], consumed, pulled);
      }
    }
  }

  lemma RestIncreases(consumed: set<nat>, i: nat, n: nat)
    ensures var rest := Rest(consumed, i, n);
            && (forall k :: 0 <= k < |rest| ==> i <= rest[k])
            && (forall k, l :: 0 <= k < l < |rest| ==> rest[k] < rest[l])
    decreases n - i
  {
  }

  function Pick(entries: seq<Entry>, order: seq<nat>): (picked: seq<Entry>)
    requires forall k :: 0 <= k < |order| ==> order[k] < |entries|
    ensures |picked| == |order|
    ensures forall k :: 0 <= k < |order| ==> picked[k] == entries[order[k]]
  {
    seq(|order|, k requires 0 <= k < |order| => entries[order[k]])
  }

  /** How many positions hold a row with another id. */
  function Moved(before: seq<Entry>, after: seq<Entry>): nat
    requires |before| == |after|
  {
    if before == [] then 0
    else
      var n := |before| - 1;
      Moved(before[..n], after[..n]) + if before[n].id == after[n].id then 0 else 1
  }

  // ---------------------------------------------------------------------
  // Single-row calls
  // ---------------------------------------------------------------------

  /** The rows that make an old-style add warn. */
  function Duplicates(entries: seq<Entry>, subject: string): nat {
    if entries == [] then 0
    else
      (if entries[0].status != Unknown && SubjectIdRef(entries[0]) == subject then 1 else 0)
      + Duplicates(entries[1..], subject)
  }

  predicate Completes(e: Entry, id: string, workflowRef: Option<string>, workflowId: Option<string>) {
    && e.id == id
    && e.status == Assigned
    && (workflowRef.Some? && e.dispatch.Some? ==> e.dispatch.value.workflowRef == workflowRef.value)
    && (workflowId.Some? && e.workflowId.Some? ==> e.workflowId == workflowId)
  }

  /** The first row an old-style "done" finishes. */
  function CompletionTarget(entries: seq<Entry>, id: string, workflowRef: Option<string>, workflowId: Option<string>)
    : (p: Option<nat>)
    ensures p.None? <==> forall i :: 0 <= i < |entries| ==> !Completes(entries[i], id, workflowRef, workflowId)
    ensures p.Some? ==> p.value < |entries| && Completes(entries[p.value], id, workflowRef, workflowId)
  {
    if entries == [] then None
    else if Completes(entries[0], id, workflowRef, workflowId) then Some(0)
    else
      var rest := CompletionTarget(entries[1..], id, workflowRef, workflowId);
      if rest.Some? then Some(rest.value + 1) else None
  }

  function PutBackOldStyle(e: Entry): Entry {
    e.(status := Pending, assignedAt := None, workflowId := None, owner := None, expiresAt := None)
  }

  /** The earliest instant after `now` at which a waiting row becomes due. */
  function NextRunAt(entries: seq<Entry>, now: Instant): (next: Option<Instant>)
    ensures next.Some? ==> next.value > now
    ensures next.Some? ==> exists e :: e in entries && e.status == Pending && ParsedRunAt(e) == next
    ensures forall e :: e in entries && e.status == Pending && IsDeferred(e, now)
                        ==> next.Some? && next.value <= ParsedRunAt(e).value
  {
    if entries == [] then None
    else
      var e := entries[0];
      var rest := NextRunAt(entries[1..], now);
      assert entries == [e] + entries[1..];
      if e.status == Pending && IsDeferred(e, now) && (rest.None? || ParsedRunAt(e).value <= rest.value)
      then ParsedRunAt(e) else rest
  }
}
