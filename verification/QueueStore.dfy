/** The id migration a load performs (src/dispatch_queue_store.rs). */
module QueueStore {
  import opened Text
  import opened QueueState
  import opened Machine
  import opened Effects
  import opened Invariant
  import opened Runs

  predicate Nameless(e: Entry) {
    Trim(e.id) == ""
  }

  function WithId(e: Entry, uuid: string): Entry {
    if Nameless(e) then e.(id := uuid) else e
  }

  /** Every row without an id gets the one minted for its place. */
  function Migrated(entries: seq<Entry>, uuids: seq<string>): (after: seq<Entry>)
    requires |entries| <= |uuids|
    ensures |after| == |entries|
    ensures forall i :: 0 <= i < |entries| ==>
              after[i] == if Trim(entries[i].id) == "" then entries[i].(id := uuids[i]) else entries[i]
  {
    seq(|entries|, i requires 0 <= i < |entries| => WithId(entries[i], uuids[i]))
  }

  /** Minted ids: no two alike, none blank, none in use. */
  ghost predicate Fresh(entries: seq<Entry>, uuids: seq<string>) {
    && (forall i, j :: 0 <= i < j < |uuids| ==> uuids[i] != uuids[j])
    && (forall i :: 0 <= i < |uuids| ==> Trim(uuids[i]) != "" && uuids[i] !in Ids(entries))
  }

  ghost predicate AllNamed(entries: seq<Entry>) {
    forall e :: e in entries ==> Trim(e.id) != ""
  }

  /** Migration names every row and makes ids unique, if those that were there were; no row changes otherwise. */
  lemma MigrationNames(entries: seq<Entry>, uuids: seq<string>)
    requires |entries| <= |uuids| && Fresh(entries, uuids)
    requires forall i, j :: 0 <= i < j < |entries| && Trim(entries[i].id) != "" ==> entries[i].id != entries[j].id
    ensures AllNamed(Migrated(entries, uuids)) && UniqueIds(Migrated(entries, uuids))
    ensures AllNamed(entries) <==> Migrated(entries, uuids) == entries
  {
    var after := Migrated(entries, uuids);
    assert forall i :: 0 <= i < |entries| ==> entries[i] in entries;
    forall i, j | 0 <= i < j < |after|
      ensures after[i].id != after[j].id
    {
      assert entries[i].id in Ids(entries) && entries[j].id in Ids(entries);
    }
    if after == entries {
      forall e | e in entries
        ensures !Nameless(e)
      {
        assert e in after;
      }
    }
  }

  /** Once every row is named they all stay named, so later loads migrate nothing. */
  lemma {:induction false} StaysNamed(d: Disk, run: seq<Event>)
    requires Inv(d) && IsRun(d, run) && AllNamed(d.live.entries)
    requires forall ev :: ev in run ==> Trim(ev.env.entryId) != ""
    ensures AllNamed(After(d, run).live.entries)
    decreases |run|
  {
    hide Inv, Next, AllNamed;
    if run != [] {
      NamesStep(d, run[0]);
      EventKeeps(d, run[0]);
      StaysNamed(Next(d, run[0]), run[1..]);
    }
  }

  lemma NamesStep(d: Disk, ev: Event)
    requires Inv(d) && Possible(d, ev) && AllNamed(d.live.entries) && Trim(ev.env.entryId) != ""
    ensures AllNamed(Next(d, ev).live.entries)
  {
    hide Inv, Perform, RowChange, MayAppear, MayFinish, Recall;
    EventMoves(d, ev);
    forall f | f in Next(d, ev).live.entries
      ensures !Nameless(f)
    {
      if f.id in Ids(d.live.entries) {
        var e :| e in d.live.entries && e.id == f.id;
      }
    }
  }
}
