/** `reorder` is a stable permutation. */
module Reordering {
  import opened Wrappers
  import opened QueueState
  import opened QueueService
  import opened Machine
  import opened Effects

  // ---------------------------------------------------------------------
  // The reference order, for a queue whose ids are unique
  // ---------------------------------------------------------------------

  /** The named rows in the order of their first mention; `taken` holds the ids mentioned before. */
  ghost function Named(entries: seq<Entry>, ids: seq<string>, taken: set<string>): seq<Entry> {
    if ids == [] then []
    else if ids[0] in taken || Position(entries, ids[0]).None? then Named(entries, ids[1..], taken)
    else [entries[Position(entries, ids[0]).value]] + Named(entries, ids[1..], taken + {ids[0]})
  }

  /** The rows that are not named, in their old order. */
  ghost function Unnamed(entries: seq<Entry>, ids: set<string>): seq<Entry> {
    if entries == [] then []
    else (if entries[0].id in ids then [] else [entries[0]]) + Unnamed(entries[1..], ids)
  }

  ghost function Mentioned(ids: seq<string>): set<string> {
    set id | id in ids
  }

  /** What a reorder asks for: named rows first, the others behind. */
  ghost function Wanted(entries: seq<Entry>, ids: seq<string>): seq<Entry> {
    Named(entries, ids, {}) + Unnamed(entries, Mentioned(ids))
  }

  // ---------------------------------------------------------------------
  // The scan finds the reference order
  // ---------------------------------------------------------------------

  /** `consumed` is where the rows with the ids in `taken` stand. */
  ghost predicate Tracks(entries: seq<Entry>, consumed: set<nat>, taken: set<string>) {
    forall i: nat :: i < |entries| ==> (i in consumed <==> entries[i].id in taken)
  }

  lemma FreeIsPosition(entries: seq<Entry>, id: string, consumed: set<nat>, taken: set<string>)
    requires UniqueIds(entries) && Tracks(entries, consumed, taken)
    ensures FirstFree(entries, id, consumed, 0) == if id in taken then None else Position(entries, id)
  {
  }

  ghost predicate Within(order: seq<nat>, n: nat) {
    forall k :: 0 <= k < |order| ==> order[k] < n
  }

  lemma PulledWithin(entries: seq<Entry>, ids: seq<string>, consumed: set<nat>)
    ensures Within(Pulled(entries, ids, consumed), |entries|)
  {
    PulledBounds(entries, ids, consumed);
    var pulled := Pulled(entries, ids, consumed);
    assert forall k :: 0 <= k < |pulled| ==> pulled[k] in pulled;
  }

  lemma RestWithin(consumed: set<nat>, i: nat, n: nat)
    requires i <= n
    ensures Within(Rest(consumed, i, n), n)
  {
    RestBounds(consumed, i, n);
    var rest := Rest(consumed, i, n);
    assert forall k :: 0 <= k < |rest| ==> rest[k] in rest;
  }

  lemma {:induction false} PulledIsNamed(entries: seq<Entry>, ids: seq<string>, consumed: set<nat>, taken: set<string>)
    requires UniqueIds(entries) && Tracks(entries, consumed, taken)
    ensures Within(Pulled(entries, ids, consumed), |entries|)
    ensures Pick(entries, Pulled(entries, ids, consumed)) == Named(entries, ids, taken)
    ensures Tracks(entries, consumed + SetOf(Pulled(entries, ids, consumed)), taken + Mentioned(ids))
  {
    hide UniqueIds, FirstFree, Position, Tracks, Pick;
    PulledWithin(entries, ids, consumed);
    MentionedStep(ids);
    if ids == [] {
      assert consumed + SetOf([]) == consumed && taken + Mentioned(ids) == taken;
    } else {
      FreeIsPosition(entries, ids[0], consumed, taken);
      var p := FirstFree(entries, ids[0], consumed, 0);
      if p.None? {
        AbsentTracks(entries, ids[0], consumed, taken);
        PulledIsNamed(entries, ids[1..], consumed, taken + {ids[0]});
        NamedSkips(entries, ids[0], ids[1..], taken);
        assert taken + {ids[0]} + Mentioned(ids[1..]) == taken + Mentioned(ids);
      } else {
        TakeTracks(entries, ids[0], consumed, taken, p.value);
        PulledIsNamed(entries, ids[1..], consumed + {p.value}, taken + {ids[0]});
        var rest := Pulled(entries, ids[1..], consumed + {p.value});
        assert SetOf([p.value] + rest) == {p.value} + SetOf(rest);
        PickCons(entries, p.value, rest);
        assert taken + {ids[0]} + Mentioned(ids[1..]) == taken + Mentioned(ids);
        assert consumed + {p.value} + SetOf(rest) == consumed + SetOf([p.value] + rest);
      }
    }
  }

  lemma MentionedStep(ids: seq<string>)
    ensures ids != [] ==> Mentioned(ids) == {ids[0]} + Mentioned(ids[1..])
    ensures Mentioned([]) == {}
  {
  }

  lemma AbsentTracks(entries: seq<Entry>, id: string, consumed: set<nat>, taken: set<string>)
    requires Tracks(entries, consumed, taken) && (id in taken || Position(entries, id).None?)
    ensures Tracks(entries, consumed, taken + {id})
  {
  }

  lemma TakeTracks(entries: seq<Entry>, id: string, consumed: set<nat>, taken: set<string>, p: nat)
    requires UniqueIds(entries) && Tracks(entries, consumed, taken)
    requires p < |entries| && entries[p].id == id
    ensures Tracks(entries, consumed + {p}, taken + {id})
  {
  }

  /** An id that names nothing more may count as taken. */
  lemma {:induction false} NamedSkips(entries: seq<Entry>, id: string, ids: seq<string>, taken: set<string>)
    requires id in taken || Position(entries, id).None?
    ensures Named(entries, ids, taken + {id}) == Named(entries, ids, taken)
  {
    if ids != [] {
      NamedSkips(entries, id, ids[1..], taken);
      NamedSkips(entries, id, ids[1..], taken + {ids[0]});
      assert taken + {id} + {ids[0]} == taken + {ids[0]} + {id};
    }
  }

  lemma PickCons(entries: seq<Entry>, p: nat, order: seq<nat>)
    requires p < |entries| && Within(order, |entries|)
    ensures Within([p] + order, |entries|)
    ensures Pick(entries, [p] + order) == [entries[p]] + Pick(entries, order)
  {
  }

  lemma PickConcat(entries: seq<Entry>, a: seq<nat>, b: seq<nat>)
    requires Within(a, |entries|) && Within(b, |entries|)
    ensures Within(a + b, |entries|)
    ensures Pick(entries, a + b) == Pick(entries, a) + Pick(entries, b)
  {
  }

  lemma {:induction false} RestIsUnnamed(entries: seq<Entry>, consumed: set<nat>, taken: set<string>, i: nat)
    requires i <= |entries| && Tracks(entries, consumed, taken)
    ensures Within(Rest(consumed, i, |entries|), |entries|)
    ensures Pick(entries, Rest(consumed, i, |entries|)) == Unnamed(entries[i..], taken)
    decreases |entries| - i
  {
    hide Pick;
    RestWithin(consumed, i, |entries|);
    if i < |entries| {
      RestIsUnnamed(entries, consumed, taken, i + 1);
      assert entries[i..][1..] == entries[i + 1..];
      PickCons(entries, i, Rest(consumed, i + 1, |entries|));
      assert [] + Rest(consumed, i + 1, |entries|) == Rest(consumed, i + 1, |entries|);
    } else {
      assert Pick(entries, []) == [];
    }
  }

  /** The named rows stand first in request order, the others behind in their old order. */
  lemma OrderIsWanted(entries: seq<Entry>, ids: seq<string>)
    requires UniqueIds(entries)
    ensures Within(NewOrder(entries, ids), |entries|)
    ensures Pick(entries, NewOrder(entries, ids)) == Wanted(entries, ids)
  {
    hide Pick, Pulled, Rest, Named, Unnamed, Within;
    assert Tracks(entries, {}, {});
    PulledIsNamed(entries, ids, {}, {});
    var pulled := Pulled(entries, ids, {});
    assert {} + SetOf(pulled) == SetOf(pulled) && {} + Mentioned(ids) == Mentioned(ids);
    RestIsUnnamed(entries, SetOf(pulled), Mentioned(ids), 0);
    assert entries[0..] == entries;
    PickConcat(entries, pulled, Rest(SetOf(pulled), 0, |entries|));
  }

  // ---------------------------------------------------------------------
  // Nothing lost, nothing doubled
  // ---------------------------------------------------------------------

  function Without(order: seq<nat>, p: nat): seq<nat>
    requires p in order
  {
    if order[0] == p then order[1..] else [order[0]] + Without(order[1..], p)
  }

  lemma {:induction false} WithoutIs(order: seq<nat>, p: nat)
    requires p in order
    ensures multiset(order) == multiset(Without(order, p)) + multiset{p}
  {
    assert order == [order[0]] + order[1..];
    if order[0] != p {
      WithoutIs(order[1..], p);
    }
  }

  lemma {:induction false} SameCounts(entries: seq<Entry>, a: seq<nat>, b: seq<nat>)
    requires multiset(a) == multiset(b)
    requires Within(a, |entries|) && Within(b, |entries|)
    ensures multiset(Pick(entries, a)) == multiset(Pick(entries, b))
    decreases |a|
  {
    hide Pick, Without, Within;
    if a == [] {
      assert |multiset(b)| == |b|;
    } else {
      assert a == [a[0]] + a[1..];
      assert a[0] in multiset(b);
      var p, rest, c := a[0], a[1..], Without(b, a[0]);
      PickWithout(entries, b, p);
      WithinTail(a, |entries|);
      SameRest(a, b, p);
      SameCounts(entries, rest, c);
      PickCons(entries, p, rest);
      OneMore(entries[p], Pick(entries, rest));
    }
  }

  lemma SameRest(a: seq<nat>, b: seq<nat>, p: nat)
    requires a != [] && p == a[0] && p in b && multiset(a) == multiset(b)
    ensures multiset(a[1..]) == multiset(Without(b, p))
  {
    hide Without;
    WithoutIs(b, p);
    assert a == [p] + a[1..];
    assert multiset(a[1..]) == multiset(a) - multiset{p};
  }

  lemma OneMore(e: Entry, rest: seq<Entry>)
    ensures multiset([e] + rest) == multiset(rest) + multiset{e}
  {
  }

  lemma WithinTail(a: seq<nat>, n: nat)
    requires Within(a, n) && a != []
    ensures Within(a[1..], n) && a[0] < n
  {
  }

  lemma {:induction false} PickWithout(entries: seq<Entry>, order: seq<nat>, p: nat)
    requires p in order && Within(order, |entries|)
    ensures p < |entries| && Within(Without(order, p), |entries|)
    ensures multiset(Pick(entries, order)) == multiset(Pick(entries, Without(order, p))) + multiset{entries[p]}
  {
    hide Pick;
    WithinTail(order, |entries|);
    assert order == [order[0]] + order[1..];
    PickCons(entries, order[0], order[1..]);
    if order[0] != p {
      PickWithout(entries, order[1..], p);
      PickCons(entries, order[0], Without(order[1..], p));
      OneMore(entries[order[0]], Pick(entries, Without(order[1..], p)));
    }
    OneMore(entries[order[0]], Pick(entries, order[1..]));
  }

  lemma {:induction false} DistinctCounts(order: seq<nat>, n: nat)
    requires |order| == n
    requires forall p: nat :: p in order <==> p < n
    requires forall k, l :: 0 <= k < l < |order| ==> order[k] != order[l]
    ensures Within(order, n) && Within(seq(n, i => i), n)
    ensures multiset(order) == multiset(seq(n, i => i))
  {
    var identity := seq(n, i => i);
    assert forall k :: 0 <= k < n ==> order[k] in order;
    forall p: nat
      ensures multiset(order)[p] == multiset(identity)[p]
    {
      CountOnce(order, p);
      CountOnce(identity, p);
      if p < n {
        assert identity[p] == p;
      }
    }
  }

  lemma {:induction false} CountOnce(order: seq<nat>, p: nat)
    requires forall k, l :: 0 <= k < l < |order| ==> order[k] != order[l]
    ensures multiset(order)[p] == if p in order then 1 else 0
  {
    if order != [] {
      var n := |order| - 1;
      assert order == order[..n] + [order[n]];
      CountOnce(order[..n], p);
    }
  }

  /** Any queue, unique ids or not: a reorder only permutes its rows, and keeps its counters. */
  lemma ReorderPermutes(q: Queue, ids: seq<string>)
    ensures multiset(PlanReorder(q, ids).queue.entries) == multiset(q.entries)
    ensures PlanReorder(q, ids).queue.counters == q.counters && PlanReorder(q, ids).finished == []
  {
    hide NewOrder, Moved;
    var order := NewOrder(q.entries, ids);
    OrderBounds(q.entries, ids);
    OrderDistinct(q.entries, ids);
    DistinctCounts(order, |q.entries|);
    var identity := seq(|q.entries|, i => i);
    SameCounts(q.entries, order, identity);
    assert Pick(q.entries, identity) == q.entries;
  }

  // ---------------------------------------------------------------------
  // The count
  // ---------------------------------------------------------------------

  /** The positions that hold another row than before. */
  ghost function ChangedPositions(before: seq<Entry>, after: seq<Entry>): set<nat>
    requires |before| == |after|
  {
    set i: nat | i < |before| && before[i] != after[i]
  }

  lemma {:induction false} MovedCounts(before: seq<Entry>, after: seq<Entry>)
    requires |before| == |after|
    requires forall i :: 0 <= i < |before| ==> (before[i].id == after[i].id <==> before[i] == after[i])
    ensures Moved(before, after) == |ChangedPositions(before, after)|
  {
    if before != [] {
      var n := |before| - 1;
      MovedCounts(before[..n], after[..n]);
      var rest := ChangedPositions(before[..n], after[..n]);
      assert ChangedPositions(before, after) == if before[n] == after[n] then rest else rest + {n};
    }
  }

  lemma NothingMoved(before: seq<Entry>, after: seq<Entry>)
    requires |before| == |after|
    ensures |ChangedPositions(before, after)| == 0 <==> before == after
  {
    if |ChangedPositions(before, after)| == 0 {
      forall i: nat | i < |before|
        ensures before[i] == after[i]
      {
        assert i !in ChangedPositions(before, after);
      }
    } else {
      assert ChangedPositions(before, after) != {};
      var i :| i in ChangedPositions(before, after);
    }
  }

  /** A reorder leaves exactly the wanted order, and counts the positions whose row changed. */
  lemma ReorderIsStable(q: Queue, ids: seq<string>)
    requires UniqueIds(q.entries)
    ensures PlanReorder(q, ids).queue.entries == Wanted(q.entries, ids)
    ensures |Wanted(q.entries, ids)| == |q.entries|
    ensures PlanReorder(q, ids).reply == Reordered(|ChangedPositions(q.entries, Wanted(q.entries, ids))|)
  {
    hide NewOrder, Wanted, ChangedPositions;
    OrderBounds(q.entries, ids);
    OrderDistinct(q.entries, ids);
    OrderIsWanted(q.entries, ids);
    var after := Pick(q.entries, NewOrder(q.entries, ids));
    PickShuffles(q.entries, NewOrder(q.entries, ids));
    forall i | 0 <= i < |after| && q.entries[i].id == after[i].id
      ensures q.entries[i] == after[i]
    {
      assert after[i] in q.entries;
      ById(q.entries, q.entries[i], after[i]);
    }
    MovedCounts(q.entries, after);
    NothingMoved(q.entries, after);
  }

  /** A count of 0 means an unchanged queue. */
  lemma ZeroIsUnchanged(q: Queue, ids: seq<string>)
    requires UniqueIds(q.entries)
    ensures PlanReorder(q, ids).reply == Reordered(0) <==> PlanReorder(q, ids).queue == q
  {
    hide Wanted, ChangedPositions, NewOrder;
    ReorderIsStable(q, ids);
    NothingMoved(q.entries, Wanted(q.entries, ids));
  }

  // ---------------------------------------------------------------------
  // Asking twice
  // ---------------------------------------------------------------------

  /** Rows found in any order of the same rows. */
  lemma {:induction false} NamedAgain(before: seq<Entry>, after: seq<Entry>, ids: seq<string>, taken: set<string>)
    requires UniqueIds(before) && UniqueIds(after)
    requires forall e :: e in after <==> e in before
    ensures Named(after, ids, taken) == Named(before, ids, taken)
  {
    if ids != [] {
      SameRowFound(before, after, ids[0]);
      NamedAgain(before, after, ids[1..], taken);
      NamedAgain(before, after, ids[1..], taken + {ids[0]});
    }
  }

  lemma SameRowFound(before: seq<Entry>, after: seq<Entry>, id: string)
    requires UniqueIds(before) && UniqueIds(after)
    requires forall e :: e in after <==> e in before
    ensures var p, r := Position(before, id), Position(after, id);
            p.Some? == r.Some? && (p.Some? ==> before[p.value] == after[r.value])
  {
    var p, r := Position(before, id), Position(after, id);
    if p.Some? {
      assert before[p.value] in after;
    }
    if r.Some? {
      assert after[r.value] in before;
      ById(before, before[p.value], after[r.value]);
    }
  }

  lemma UnnamedCons(e: Entry, rest: seq<Entry>, ids: set<string>)
    ensures Unnamed([e] + rest, ids) == (if e.id in ids then [] else [e]) + Unnamed(rest, ids)
  {
    assert ([e] + rest)[1..] == rest;
  }

  lemma {:induction false} UnnamedConcat(a: seq<Entry>, b: seq<Entry>, ids: set<string>)
    ensures Unnamed(a + b, ids) == Unnamed(a, ids) + Unnamed(b, ids)
  {
    hide Unnamed;
    if a == [] {
      assert a + b == b;
      assert Unnamed(a, ids) == [] by { NoneUnnamed(a, ids); }
    } else {
      var e, rest := a[0], a[1..];
      UnnamedConcat(rest, b, ids);
      UnnamedCons(e, rest, ids);
      UnnamedCons(e, rest + b, ids);
      assert a == [e] + rest;
      assert a + b == [e] + (rest + b);
    }
  }

  lemma {:induction false} NamedAreMentioned(entries: seq<Entry>, ids: seq<string>, taken: set<string>,
                                             all: set<string>)
    requires Mentioned(ids) <= all
    ensures forall e :: e in Named(entries, ids, taken) ==> e.id in all
  {
    if ids != [] {
      assert ids[0] in Mentioned(ids) && Mentioned(ids[1..]) <= Mentioned(ids);
      NamedAreMentioned(entries, ids[1..], taken, all);
      NamedAreMentioned(entries, ids[1..], taken + {ids[0]}, all);
    }
  }

  lemma {:induction false} NoneUnnamed(entries: seq<Entry>, ids: set<string>)
    requires forall e :: e in entries ==> e.id in ids
    ensures Unnamed(entries, ids) == []
  {
    if entries != [] {
      assert entries[0] in entries;
      NoneUnnamed(entries[1..], ids);
    }
  }

  lemma {:induction false} UnnamedAgain(entries: seq<Entry>, ids: set<string>)
    ensures Unnamed(Unnamed(entries, ids), ids) == Unnamed(entries, ids)
  {
    if entries != [] {
      var rest := Unnamed(entries[1..], ids);
      UnnamedAgain(entries[1..], ids);
      UnnamedCons(entries[0], rest, ids);
      assert [] + rest == rest;
    }
  }

  /** Repeating a reorder changes nothing. */
  lemma ReorderTwice(q: Queue, ids: seq<string>)
    requires UniqueIds(q.entries)
    ensures var once := PlanReorder(q, ids).queue;
            PlanReorder(once, ids) == Plan(once, [], Reordered(0))
  {
    hide NewOrder, Moved, Named, Unnamed, ChangedPositions, Mentioned;
    ReorderIsStable(q, ids);
    OrderBounds(q.entries, ids);
    OrderDistinct(q.entries, ids);
    PickShuffles(q.entries, NewOrder(q.entries, ids));
    var once := PlanReorder(q, ids).queue;
    OrderIsWanted(q.entries, ids);
    NamedAgain(q.entries, once.entries, ids, {});
    var named, unnamed := Named(q.entries, ids, {}), Unnamed(q.entries, Mentioned(ids));
    UnnamedConcat(named, unnamed, Mentioned(ids));
    NamedAreMentioned(q.entries, ids, {}, Mentioned(ids));
    NoneUnnamed(named, Mentioned(ids));
    UnnamedAgain(q.entries, Mentioned(ids));
    assert Wanted(once.entries, ids) == once.entries;
    ReorderIsStable(once, ids);
    ZeroIsUnchanged(once, ids);
  }
}
