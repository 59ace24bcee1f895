/** Finished-row records and the lookups over them (src/queue_history.rs). */
module QueueHistory {
  import opened Wrappers
  import opened QueueState

  datatype Outcome = Completed | Failed | Cancelled | Dropped

  /** `finishedBy` names the call that finished the row. */
  datatype Record = Record(outcome: Outcome, finishedAt: Instant, finishedBy: string, entry: Entry)

  function OutcomeOf(status: string): Option<Outcome> {
    if status == "completed" then Some(Completed)
    else if status == "failed" then Some(Failed)
    else if status == "cancelled" then Some(Cancelled)
    else None
  }

  /** The three terminal words, each with its outcome; no other word is one. */
  lemma OutcomeWords(status: string)
    ensures OutcomeOf("completed") == Some(Completed)
    ensures OutcomeOf("failed") == Some(Failed)
    ensures OutcomeOf("cancelled") == Some(Cancelled)
    ensures OutcomeOf(status).Some? ==> status == "completed" || status == "failed" || status == "cancelled"
  {
    assert "completed" != "failed" by { assert |"completed"| != |"failed"|; }
    assert "completed"[1] != "cancelled"[1];
    assert "failed" != "cancelled" by { assert |"failed"| != |"cancelled"|; }
  }

  /** The row as a record keeps it: without its dispatch envelope. */
  function Snapshot(e: Entry): Entry {
    e.(dispatch := None)
  }

  function Finished(e: Entry, outcome: Outcome, call: string, now: Instant): Record {
    Record(outcome, now, call, Snapshot(e))
  }

  /** Where the last item that satisfies `matches` stands. */
  function LastIndex<R>(log: seq<R>, matches: R -> bool): (p: Option<nat>)
    ensures p.None? <==> forall i :: 0 <= i < |log| ==> !matches(log[i])
    ensures p.Some? ==> p.value < |log| && matches(log[p.value])
    ensures p.Some? ==> forall i :: p.value < i < |log| ==> !matches(log[i])
  {
    if log == [] then None
    else if matches(log[|log| - 1]) then Some(|log| - 1)
    else LastIndex(log[..|log| - 1], matches)
  }

  function LastMatch<R>(log: seq<R>, matches: R -> bool): Option<R> {
    var p := LastIndex(log, matches);
    if p.Some? then Some(log[p.value]) else None
  }

  lemma LastMatchAppended<R>(log: seq<R>, r: R, matches: R -> bool)
    ensures LastMatch(log + [r], matches) == if matches(r) then Some(r) else LastMatch(log, matches)
  {
    assert (log + [r])[..|log|] == log;
  }

  lemma {:induction false} LastMatchConcat<R>(log: seq<R>, more: seq<R>, matches: R -> bool)
    ensures LastMatch(log + more, matches)
            == if LastMatch(more, matches).Some? then LastMatch(more, matches) else LastMatch(log, matches)
  {
    if more == [] {
      assert log + more == log;
    } else {
      var n := |more| - 1;
      LastMatchConcat(log, more[..n], matches);
      assert log + more == (log + more[..n]) + [more[n]];
      LastMatchAppended(log + more[..n], more[n], matches);
    }
  }

  /** Tests that agree find the same item. */
  lemma LastMatchSame<R>(log: seq<R>, a: R -> bool, b: R -> bool)
    requires forall r :: r in log ==> a(r) == b(r)
    ensures LastMatch(log, a) == LastMatch(log, b)
  {
    assert forall i :: 0 <= i < |log| ==> log[i] in log;
  }

  function LastForEntry(log: seq<Record>, id: string): Option<Record> {
    LastMatch(log, (r: Record) => r.entry.id == id)
  }

  function LastForKey(log: seq<Record>, key: string): Option<Record> {
    LastMatch(log, (r: Record) => HoldsKey(r.entry, key))
  }

  ghost function LogIds(log: seq<Record>): set<string> {
    set r | r in log :: r.entry.id
  }
}
