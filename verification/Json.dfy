/** JSON values, and their equality up to the order of object keys. */
module Json {

  datatype Value =
    | Null
    | Bool(value: bool)
    | Number(digits: string)
    | Str(text: string)
    | Array(items: seq<Value>)
    | Object(members: seq<Member>)

  datatype Member = Member(key: string, value: Value)

  // ---------------------------------------------------------------------
  // Values
  // ---------------------------------------------------------------------

  predicate IsDigit(c: char) {
    '0' <= c <= '9'
  }

  /** The characters of number texts (section 6 of RFC 8259). */
  predicate InNumber(c: char) {
    IsDigit(c) || c == '-' || c == '+' || c == '.' || c == 'e' || c == 'E'
  }

  predicate IsNumberText(s: string) {
    s != "" && (IsDigit(s[0]) || s[0] == '-') && forall c :: c in s ==> InNumber(c)
  }

  ghost predicate DistinctKeys(members: seq<Member>) {
    forall i, j :: 0 <= i < j < |members| ==> members[i].key != members[j].key
  }

  /** A value the JSON library can hold: numbers print as numbers, and no object has a key twice. */
  ghost predicate Proper(v: Value) {
    match v
    case Number(digits) => IsNumberText(digits)
    case Array(items) => forall i :: 0 <= i < |items| ==> Proper(items[i])
    case Object(members) => DistinctKeys(members) && forall i :: 0 <= i < |members| ==> Proper(members[i].value)
    case _ => true
  }

  /** Equal up to the order of object keys. */
  ghost predicate Same(a: Value, b: Value) {
    match a
    case Array(items) =>
      b.Array? && |b.items| == |items| && forall i :: 0 <= i < |items| ==> Same(items[i], b.items[i])
    case Object(members) =>
      b.Object? && |b.members| == |members| && forall i :: 0 <= i < |members| ==> Paired(members[i], b.members)
    case _ => a == b
  }

  /** One of `others` has `m`'s key and the same value. */
  ghost predicate Paired(m: Member, others: seq<Member>) {
    exists j :: 0 <= j < |others| && m.key == others[j].key && Same(m.value, others[j].value)
  }

  // ---------------------------------------------------------------------
  // Sizes
  // ---------------------------------------------------------------------

  function Size(v: Value): (n: nat)
    ensures n > 0
  {
    match v
    case Array(items) => 1 + ItemsSize(items)
    case Object(members) => 1 + MembersSize(members)
    case _ => 1
  }

  function ItemsSize(items: seq<Value>): nat {
    if items == [] then 0 else 1 + Size(items[0]) + ItemsSize(items[1..])
  }

  function MembersSize(members: seq<Member>): nat {
    if members == [] then 0 else 1 + Size(members[0].value) + MembersSize(members[1..])
  }

  // ---------------------------------------------------------------------
  // Key order
  // ---------------------------------------------------------------------

  /** Lexicographic order by code point. */
  predicate Before(a: string, b: string) {
    b != "" && (a == "" || a[0] < b[0] || (a[0] == b[0] && Before(a[1..], b[1..])))
  }

  /** The order compares the first characters that differ; a text stands behind its own beginnings. */
  lemma {:induction false} BeforeIs(a: string, b: string, n: nat)
    requires n <= |a| && n <= |b| && a[..n] == b[..n]
    requires n < |a| && n < |b| ==> a[n] != b[n]
    ensures Before(a, b) <==> (n == |a| < |b|) || (n < |a| && n < |b| && a[n] < b[n])
  {
    if n > 0 {
      assert a[0] == a[..n][0] && b[0] == b[..n][0];
      assert a[1..][..n - 1] == a[..n][1..] && b[1..][..n - 1] == b[..n][1..];
      BeforeIs(a[1..], b[1..], n - 1);
    }
  }

  lemma {:induction false} BeforeIrreflexive(a: string)
    ensures !Before(a, a)
  {
    if a != "" {
      BeforeIrreflexive(a[1..]);
    }
  }

  lemma {:induction false} BeforeTotal(a: string, b: string)
    ensures a == b || Before(a, b) || Before(b, a)
  {
    if a != "" && b != "" && a[0] == b[0] {
      BeforeTotal(a[1..], b[1..]);
      assert a == [a[0]] + a[1..] && b == [b[0]] + b[1..];
    }
  }

  lemma {:induction false} BeforeTransitive(a: string, b: string, c: string)
    requires Before(a, b) && Before(b, c)
    ensures Before(a, c)
  {
    if a != "" && a[0] == b[0] && b[0] == c[0] {
      BeforeTransitive(a[1..], b[1..], c[1..]);
    }
  }

  ghost predicate Increasing(members: seq<Member>) {
    forall i, j :: 0 <= i < j < |members| ==> Before(members[i].key, members[j].key)
  }

  function Insert(m: Member, sorted: seq<Member>): (r: seq<Member>)
    ensures MembersSize(r) == 1 + Size(m.value) + MembersSize(sorted)
    ensures multiset(r) == multiset{m} + multiset(sorted)
  {
    if sorted == [] || Before(m.key, sorted[0].key) then
      assert ([m] + sorted)[1..] == sorted;
      [m] + sorted
    else
      assert sorted == [sorted[0]] + sorted[1..];
      assert ([sorted[0]] + Insert(m, sorted[1..]))[1..] == Insert(m, sorted[1..]);
      [sorted[0]] + Insert(m, sorted[1..])
  }

  /** The members in key order. */
  function InKeyOrder(members: seq<Member>): (r: seq<Member>)
    ensures MembersSize(r) == MembersSize(members)
    ensures multiset(r) == multiset(members)
  {
    if members == [] then []
    else
      assert members == [members[0]] + members[1..];
      Insert(members[0], InKeyOrder(members[1..]))
  }

  lemma SameElements(a: seq<Member>, b: seq<Member>)
    requires multiset(a) == multiset(b)
    ensures |a| == |b| && forall m :: m in a <==> m in b
  {
    assert |multiset(a)| == |a| && |multiset(b)| == |b|;
    assert forall m :: m in a <==> m in multiset(a);
    assert forall m :: m in b <==> m in multiset(b);
  }

  lemma {:induction false} InsertIncreases(m: Member, sorted: seq<Member>)
    requires Increasing(sorted) && forall x :: x in sorted ==> x.key != m.key
    ensures Increasing(Insert(m, sorted))
  {
    if sorted != [] {
      if Before(m.key, sorted[0].key) {
        forall j | 0 < j < |sorted|
          ensures Before(m.key, sorted[j].key)
        {
          BeforeTransitive(m.key, sorted[0].key, sorted[j].key);
        }
      } else {
        BeforeTotal(m.key, sorted[0].key);
        assert sorted[0] in sorted;
        InsertIncreases(m, sorted[1..]);
        PrependIncreases(sorted[0], Insert(m, sorted[1..]), [m] + sorted[1..]);
      }
    }
  }

  lemma PrependIncreases(m: Member, tail: seq<Member>, elements: seq<Member>)
    requires Increasing(tail) && multiset(tail) == multiset(elements)
    requires forall i :: 0 <= i < |elements| ==> Before(m.key, elements[i].key)
    ensures Increasing([m] + tail)
  {
    hide Before;
    SameElements(tail, elements);
    forall j | 0 <= j < |tail|
      ensures Before(m.key, tail[j].key)
    {
      assert tail[j] in elements;
    }
  }

  lemma {:induction false} OrderIncreases(members: seq<Member>)
    requires DistinctKeys(members)
    ensures Increasing(InKeyOrder(members))
  {
    if members != [] {
      OrderIncreases(members[1..]);
      SameElements(InKeyOrder(members[1..]), members[1..]);
      InsertIncreases(members[0], InKeyOrder(members[1..]));
    }
  }

  lemma IncreasingDistinct(members: seq<Member>)
    requires Increasing(members)
    ensures DistinctKeys(members)
  {
    forall i, j | 0 <= i < j < |members|
      ensures members[i].key != members[j].key
    {
      BeforeIrreflexive(members[i].key);
    }
  }

  /** Rows of keys in order are determined by what they contain. */
  lemma {:induction false} OneOrder(a: seq<Member>, b: seq<Member>)
    requires Increasing(a) && Increasing(b)
    requires forall m :: m in a <==> m in b
    ensures a == b
  {
    if b != [] {
      assert b[0] in a;
    }
    if a != [] {
      assert a[0] in b;
      FirstIsLeast(a, b[0]);
      FirstIsLeast(b, a[0]);
      BeforeAsymmetric(a[0].key, b[0].key);
      TailElements(a);
      TailElements(b);
      OneOrder(a[1..], b[1..]);
    }
  }

  lemma BeforeAsymmetric(a: string, b: string)
    ensures !(Before(a, b) && Before(b, a))
  {
    if Before(a, b) && Before(b, a) {
      BeforeTransitive(a, b, a);
      BeforeIrreflexive(a);
    }
  }

  lemma FirstIsLeast(a: seq<Member>, m: Member)
    requires Increasing(a) && m in a
    ensures m == a[0] || Before(a[0].key, m.key)
  {
  }

  lemma TailElements(a: seq<Member>)
    requires Increasing(a) && a != []
    ensures Increasing(a[1..]) && forall m :: m in a[1..] <==> m in a && m != a[0]
  {
    IncreasingDistinct(a);
  }

  // ---------------------------------------------------------------------
  // The sorted form
  // ---------------------------------------------------------------------

  /** The value with every object's keys in order. */
  function Sorted(v: Value): Value
    decreases Size(v)
  {
    match v
    case Array(items) => Array(SortedItems(items))
    case Object(members) => Object(SortedValues(InKeyOrder(members)))
    case _ => v
  }

  function SortedItems(items: seq<Value>): (r: seq<Value>)
    decreases ItemsSize(items)
    ensures |r| == |items|
  {
    if items == [] then [] else [Sorted(items[0])] + SortedItems(items[1..])
  }

  function SortedValues(members: seq<Member>): (r: seq<Member>)
    decreases MembersSize(members)
    ensures |r| == |members|
    ensures forall i :: 0 <= i < |members| ==> r[i].key == members[i].key
  {
    if members == [] then []
    else [Member(members[0].key, Sorted(members[0].value))] + SortedValues(members[1..])
  }

  lemma {:induction false} SortedItemsAt(items: seq<Value>)
    ensures forall i :: 0 <= i < |items| ==> SortedItems(items)[i] == Sorted(items[i])
  {
    if items != [] {
      SortedItemsAt(items[1..]);
      assert forall i :: 0 < i < |items| ==> items[i] == items[1..][i - 1];
    }
  }

  lemma {:induction false} SortedValuesAt(members: seq<Member>)
    ensures forall i :: 0 <= i < |members| ==>
              SortedValues(members)[i] == Member(members[i].key, Sorted(members[i].value))
  {
    if members != [] {
      SortedValuesAt(members[1..]);
      assert forall i :: 0 < i < |members| ==> members[i] == members[1..][i - 1];
    }
  }

  /** The members of a sorted object: those of the object, each with its value sorted. */
  ghost predicate SortsMembers(members: seq<Member>, sorted: seq<Member>) {
    && Increasing(sorted)
    && (forall m :: m in members ==> Member(m.key, Sorted(m.value)) in sorted)
    && (forall s :: s in sorted ==> exists m :: m in members && s == Member(m.key, Sorted(m.value)))
  }

  lemma ObjectSorts(members: seq<Member>)
    requires DistinctKeys(members)
    ensures SortsMembers(members, SortedValues(InKeyOrder(members)))
  {
    hide Sorted, InKeyOrder, SortedValues;
    var ordered := InKeyOrder(members);
    var sorted := SortedValues(ordered);
    OrderIncreases(members);
    SameElements(ordered, members);
    SortedValuesAt(ordered);
    forall m | m in members
      ensures Member(m.key, Sorted(m.value)) in sorted
    {
      var i :| 0 <= i < |ordered| && ordered[i] == m;
      assert sorted[i] == Member(m.key, Sorted(m.value));
    }
    forall s | s in sorted
      ensures exists m :: m in members && s == Member(m.key, Sorted(m.value))
    {
      var i :| 0 <= i < |sorted| && sorted[i] == s;
      assert ordered[i] in members;
    }
  }

  /** Two values are equal up to key order exactly when their sorted forms are equal. */
  lemma {:induction false} SameIffSorted(a: Value, b: Value)
    requires Proper(a) && Proper(b)
    ensures Same(a, b) <==> Sorted(a) == Sorted(b)
    decreases a
  {
    hide Same, Sorted;
    if a.Array? && b.Array? {
      forall i, j | 0 <= i < |a.items| && 0 <= j < |b.items|
        ensures Same(a.items[i], b.items[j]) <==> Sorted(a.items[i]) == Sorted(b.items[j])
      {
        SameIffSorted(a.items[i], b.items[j]);
      }
      ArraysSame(a.items, b.items);
    } else if a.Object? && b.Object? {
      forall i, j | 0 <= i < |a.members| && 0 <= j < |b.members|
        ensures Same(a.members[i].value, b.members[j].value)
                <==> Sorted(a.members[i].value) == Sorted(b.members[j].value)
      {
        SameIffSorted(a.members[i].value, b.members[j].value);
      }
      ObjectsSame(a.members, b.members);
    } else {
      KindsDiffer(a, b);
    }
  }

  lemma KindsDiffer(a: Value, b: Value)
    requires !(a.Array? && b.Array?) && !(a.Object? && b.Object?)
    ensures Same(a, b) <==> Sorted(a) == Sorted(b)
  {
  }

  lemma ArraysSame(a: seq<Value>, b: seq<Value>)
    requires forall i, j :: 0 <= i < |a| && 0 <= j < |b| ==> (Same(a[i], b[j]) <==> Sorted(a[i]) == Sorted(b[j]))
    ensures Same(Array(a), Array(b)) <==> Sorted(Array(a)) == Sorted(Array(b))
  {
    hide SortedItems;
    assert |a| != |b| ==> |SortedItems(a)| != |SortedItems(b)|;
    if |a| == |b| {
      SequencesEqual(a, b);
    }
  }

  lemma ObjectsSame(a: seq<Member>, b: seq<Member>)
    requires DistinctKeys(a) && DistinctKeys(b)
    requires forall i, j :: 0 <= i < |a| && 0 <= j < |b| ==>
               (Same(a[i].value, b[j].value) <==> Sorted(a[i].value) == Sorted(b[j].value))
    ensures Same(Object(a), Object(b)) <==> Sorted(Object(a)) == Sorted(Object(b))
  {
    hide SortedValues, InKeyOrder;
    ObjectsEqual(a, b);
    assert Same(Object(a), Object(b)) <==> |a| == |b| && Matches(a, b);
  }

  lemma SequencesEqual(a: seq<Value>, b: seq<Value>)
    requires |a| == |b|
    ensures SortedItems(a) == SortedItems(b) <==> forall i :: 0 <= i < |a| ==> Sorted(a[i]) == Sorted(b[i])
  {
    hide Sorted, SortedItems;
    SortedItemsAt(a);
    SortedItemsAt(b);
    if SortedItems(a) == SortedItems(b) {
      forall i | 0 <= i < |a|
        ensures Sorted(a[i]) == Sorted(b[i])
      {
        assert SortedItems(a)[i] == Sorted(a[i]);
      }
    }
  }

  /** Every member of `a` has a partner in `b`. */
  ghost predicate Matches(a: seq<Member>, b: seq<Member>) {
    forall i :: 0 <= i < |a| ==>
      exists j :: 0 <= j < |b| && a[i].key == b[j].key && Sorted(a[i].value) == Sorted(b[j].value)
  }

  lemma ObjectsEqual(a: seq<Member>, b: seq<Member>)
    requires DistinctKeys(a) && DistinctKeys(b)
    ensures SortedValues(InKeyOrder(a)) == SortedValues(InKeyOrder(b)) <==> |a| == |b| && Matches(a, b)
  {
    hide Sorted, SortedValues, InKeyOrder;
    var x, y := SortedValues(InKeyOrder(a)), SortedValues(InKeyOrder(b));
    ObjectSorts(a);
    ObjectSorts(b);
    SameElements(InKeyOrder(a), a);
    SameElements(InKeyOrder(b), b);
    if |a| == |b| && Matches(a, b) {
      MatchedBack(a, b);
      MatchedIn(a, b, x, y);
      MatchedIn(b, a, y, x);
      OneOrder(x, y);
    }
    if x == y {
      forall i | 0 <= i < |a|
        ensures exists j :: 0 <= j < |b| && a[i].key == b[j].key && Sorted(a[i].value) == Sorted(b[j].value)
      {
        assert Member(a[i].key, Sorted(a[i].value)) in y;
        var m :| m in b && Member(a[i].key, Sorted(a[i].value)) == Member(m.key, Sorted(m.value));
        var j :| 0 <= j < |b| && b[j] == m;
      }
    }
  }

  lemma MatchedIn(a: seq<Member>, b: seq<Member>, x: seq<Member>, y: seq<Member>)
    requires Matches(a, b) && SortsMembers(a, x) && SortsMembers(b, y)
    ensures forall s :: s in x ==> s in y
  {
    hide Sorted;
    forall s | s in x
      ensures s in y
    {
      var m :| m in a && s == Member(m.key, Sorted(m.value));
      var i :| 0 <= i < |a| && a[i] == m;
      var j :| 0 <= j < |b| && a[i].key == b[j].key && Sorted(a[i].value) == Sorted(b[j].value);
      assert b[j] in b;
    }
  }

  function Keys(members: seq<Member>): set<string> {
    set m | m in members :: m.key
  }

  lemma {:induction false} KeysCount(members: seq<Member>)
    requires DistinctKeys(members)
    ensures |Keys(members)| == |members|
  {
    if members != [] {
      KeysCount(members[1..]);
      assert Keys(members) == {members[0].key} + Keys(members[1..]) by {
        assert members == [members[0]] + members[1..];
      }
      assert members[0].key !in Keys(members[1..]);
    }
  }

  /** As many distinct keys on both sides: if every key of `a` is one of `b`, every key of `b` is one of `a`. */
  lemma MatchedBack(a: seq<Member>, b: seq<Member>)
    requires DistinctKeys(a) && DistinctKeys(b) && |a| == |b| && Matches(a, b)
    ensures Matches(b, a)
  {
    hide Sorted;
    KeysCount(a);
    KeysCount(b);
    forall k | k in Keys(a)
      ensures k in Keys(b)
    {
      var m :| m in a && m.key == k;
      var i :| 0 <= i < |a| && a[i] == m;
      var j :| 0 <= j < |b| && a[i].key == b[j].key && Sorted(a[i].value) == Sorted(b[j].value);
      assert b[j] in b;
    }
    EqualCount(Keys(a), Keys(b));
    forall j | 0 <= j < |b|
      ensures exists i :: 0 <= i < |a| && b[j].key == a[i].key && Sorted(b[j].value) == Sorted(a[i].value)
    {
      assert b[j] in b;
      assert b[j].key in Keys(a);
      var m :| m in a && m.key == b[j].key;
      var i :| 0 <= i < |a| && a[i] == m;
      var k :| 0 <= k < |b| && a[i].key == b[k].key && Sorted(a[i].value) == Sorted(b[k].value);
      assert k == j;
    }
  }

  lemma EqualCount(a: set<string>, b: set<string>)
    requires a <= b && |a| == |b|
    ensures a == b
  {
    assert b == a + (b - a);
  }
}
