/**
 * The two files behave like one transactional row table that keeps finished rows: every reply is the table's, and a
 * commit interrupted anywhere leaves the table as it was.
 */
module CrashRefinement {
  import opened Wrappers
  import opened QueueState
  import opened QueueHistory
  import opened QueueService
  import opened FencedQueue
  import opened Machine
  import opened Effects
  import opened Invariant
  import opened Runs
  import opened Fencing
  import opened Idempotency
  import opened Finishing

  // ---------------------------------------------------------------------
  // The table
  // ---------------------------------------------------------------------

  /** The live rows, and for every finished row the one record of how it finished. */
  datatype Table = Table(live: Queue, done: map<string, Record>)

  /** The finished row that holds a key; keys are unique, so there is at most one. */
  ghost function RowWithKey(done: map<string, Record>, key: string): Option<Record> {
    if exists id :: id in done && HoldsKey(done[id].entry, key) then
      var id :| id in done && HoldsKey(done[id].entry, key);
      Some(done[id])
    else None
  }

  /** The finished row a call looks up. */
  ghost function TableRecall(t: Table, call: Call, env: Env): Option<Record> {
    match call
    case EnqueueV2(add) =>
      if NeedsPastKey(t.live, add, env) then RowWithKey(t.done, TrimmedKey(add).value) else None
    case Ticket(fence, op) =>
      if NeedsPastRow(t.live, fence) && fence.lease.value.entryId in t.done then Some(t.done[fence.lease.value.entryId])
      else None
    case _ => None
  }

  ghost function TablePlan(t: Table, call: Call, env: Env): Plan
    requires Supplied(call, env)
  {
    Perform(t.live, TableRecall(t, call, env), call, env)
  }

  ghost function FinishedRows(finished: seq<Record>): map<string, Record> {
    map id | id in LogIds(finished) && LastForEntry(finished, id).Some? :: LastForEntry(finished, id).value
  }

  /** A transaction: all of a call, or nothing of it. */
  ghost function TableNext(t: Table, ev: Event): Table
    requires Supplied(ev.call, ev.env)
  {
    if ev.cut.Some? then t
    else Table(TablePlan(t, ev.call, ev.env).queue, t.done + FinishedRows(TablePlan(t, ev.call, ev.env).finished))
  }

  /** The table the two files stand for. */
  ghost function Abs(d: Disk): Table {
    Table(d.live, map id | id in LogIds(d.log) && IsDone(d, id) :: DoneRecord(d, id))
  }

  // ---------------------------------------------------------------------
  // Simulation
  // ---------------------------------------------------------------------

  lemma DoneInLog(d: Disk, id: string)
    ensures IsDone(d, id) ==> id in LogIds(d.log)
    ensures id in Abs(d).done <==> IsDone(d, id)
    ensures IsDone(d, id) ==> Abs(d).done[id] == DoneRecord(d, id)
  {
    LastForEntryIs(d.log, id);
  }

  /** The log lookups find the table's rows, in spite of the lines interrupted commits left behind. */
  lemma RecallAgrees(d: Disk, call: Call, env: Env)
    requires Inv(d)
    ensures TableRecall(Abs(d), call, env) == Recall(d, call, env)
  {
    hide Inv, SweepQueue, SweepFinished, CurrentHolder, Abs, LastForEntry, LastForKey;
    if call.EnqueueV2? && NeedsPastKey(d.live, call.add, env) {
      var key := TrimmedKey(call.add).value;
      NobodyHoldsNow(d.live, env.now, key);
      LiveOfAbs(d);
      KeyRecallAgrees(d, key);
    } else if call.Ticket? && NeedsPastRow(d.live, call.fence) {
      DoneInLog(d, call.fence.lease.value.entryId);
      LiveOfAbs(d);
      RowRecallAgrees(d, call.fence.lease.value.entryId);
    } else {
      LiveOfAbs(d);
    }
  }

  lemma LiveOfAbs(d: Disk)
    ensures Abs(d).live == d.live
  {
  }

  lemma RowRecallAgrees(d: Disk, id: string)
    requires Position(d.live.entries, id).None?
    ensures LastForEntry(d.log, id) == if IsDone(d, id) then Some(DoneRecord(d, id)) else None
  {
  }

  lemma KeyRecallAgrees(d: Disk, key: string)
    requires Inv(d)
    requires forall e :: e in d.live.entries ==> !HoldsKey(e, key)
    ensures RowWithKey(Abs(d).done, key) == LastForKey(d.log, key)
  {
    hide Inv, HoldsKey, Abs, IsDone, DoneRecord;
    var done := Abs(d).done;
    if LastForKey(d.log, key).Some? {
      var x := LastForKey(d.log, key).value;
      PastHolder(d, key, x);
      DoneInLog(d, x.entry.id);
      assert x.entry.id in done;
      var id :| id in done && HoldsKey(done[id].entry, key) && RowWithKey(done, key) == Some(done[id]);
      DoneInLog(d, id);
      DoneApart(d, id, x.entry.id, key);
    } else if exists id :: id in done && HoldsKey(done[id].entry, key) {
      var id :| id in done && HoldsKey(done[id].entry, key);
      DoneInLog(d, id);
      DoneHoldsNothing(d, id, key);
      assert false;
    }
  }

  lemma DoneHoldsNothing(d: Disk, id: string, key: string)
    requires IsDone(d, id) && LastForKey(d.log, key).None?
    ensures !HoldsKey(DoneRecord(d, id).entry, key)
  {
    LastForEntryIs(d.log, id);
  }

  lemma PlansAgree(d: Disk, ev: Event)
    requires Inv(d) && Supplied(ev.call, ev.env)
    ensures TablePlan(Abs(d), ev.call, ev.env) == PlanOf(d, ev.call, ev.env)
  {
    hide Inv, Recall, TableRecall, Perform;
    RecallAgrees(d, ev.call, ev.env);
  }

  /** One event on the files is one transaction on the table. */
  lemma EventRefines(d: Disk, ev: Event)
    requires Inv(d) && Possible(d, ev)
    ensures Abs(Next(d, ev)) == TableNext(Abs(d), ev)
  {
    hide Inv, TablePlan, Abs, IsDone, DoneRecord, LastForEntry, PlanOf, LogIds;
    PlansAgree(d, ev);
    LiveOfAbs(d);
    LiveOfAbs(Next(d, ev));
    var after, t := Abs(Next(d, ev)).done, TableNext(Abs(d), ev).done;
    forall id
      ensures id in after <==> id in t
      ensures id in after ==> after[id] == t[id]
    {
      DoneInLog(d, id);
      DoneInLog(Next(d, ev), id);
      if ev.cut.None? {
        FinishedRowsIs(PlanOf(d, ev.call, ev.env).finished, id);
        DoneAfter(d, ev, id);
      } else {
        DoneAfterCut(d, ev, id);
      }
    }
    assert after == t;
    assert Abs(Next(d, ev)) == Table(Next(d, ev).live, after);
    assert TableNext(Abs(d), ev) == Table(Next(d, ev).live, t);
  }

  lemma FinishedRowsIs(finished: seq<Record>, id: string)
    ensures id in FinishedRows(finished) <==> id in LogIds(finished)
    ensures id in LogIds(finished) ==> Some(FinishedRows(finished)[id]) == LastForEntry(finished, id)
  {
    LastForEntryIs(finished, id);
  }

  lemma DoneAfter(d: Disk, ev: Event, id: string)
    requires Inv(d) && Possible(d, ev) && ev.cut.None?
    ensures var finished := PlanOf(d, ev.call, ev.env).finished;
            if id in LogIds(finished)
            then IsDone(Next(d, ev), id) && Some(DoneRecord(Next(d, ev), id)) == LastForEntry(finished, id)
            else && (IsDone(Next(d, ev), id) <==> IsDone(d, id))
                 && (IsDone(d, id) ==> DoneRecord(Next(d, ev), id) == DoneRecord(d, id))
  {
    hide Inv, Perform, MayFinish, MayChange, MayAppear, Recall;
    var finished := PlanOf(d, ev.call, ev.env).finished;
    LastForEntryConcat(d.log, finished, id);
    LastForEntryIs(finished, id);
    LastForEntryIs(d.log, id);
    if id in LogIds(finished) {
      FinishedIsDone(d, ev, id);
    } else if IsLive(d, id) {
      EventMoves(d, ev);
      assert id in Ids(Next(d, ev).live.entries);
    } else {
      AbsentAfter(d, ev, id);
    }
  }

  lemma DoneAfterCut(d: Disk, ev: Event, id: string)
    requires Inv(d) && Possible(d, ev) && ev.cut.Some?
    ensures IsDone(Next(d, ev), id) <==> IsDone(d, id)
    ensures IsDone(d, id) ==> DoneRecord(Next(d, ev), id) == DoneRecord(d, id)
  {
    hide Inv, Perform, MayFinish, MayChange, MayAppear, Recall;
    if !IsLive(d, id) {
      AbsentAfter(d, ev, id);
      if !IsDone(d, id) {
        NotInCut(d, ev, id);
      }
    }
  }

  lemma NotInCut(d: Disk, ev: Event, id: string)
    requires Inv(d) && Possible(d, ev) && ev.cut.Some? && Version(d, id).None?
    ensures LastForEntry(Next(d, ev).log, id).None?
  {
    hide Inv, Perform, MayFinish, MayChange, MayAppear, Recall;
    EventMoves(d, ev);
    var plan := PlanOf(d, ev.call, ev.env);
    var appended := Next(d, ev).log[|d.log|..];
    forall r | r in appended
      ensures r.entry.id != id
    {
      assert r in plan.finished;
      var x :| x in d.live.entries && MayFinish(ev.call, ev.env, plan.reply, x, r);
      FinishKeepsId(ev.call, ev.env, plan.reply, x, r);
    }
    assert Next(d, ev).log == d.log + appended;
    LastForEntryConcat(d.log, appended, id);
    LastForEntryIs(appended, id);
  }

  // ---------------------------------------------------------------------
  // Runs
  // ---------------------------------------------------------------------

  /** What the callers of a run are told; an interrupted call is told nothing. */
  ghost function Replies(d: Disk, run: seq<Event>): seq<Option<Reply>>
    requires IsRun(d, run)
    decreases |run|
  {
    if run == [] then []
    else [if run[0].cut.None? then Some(PlanOf(d, run[0].call, run[0].env).reply) else None]
         + Replies(Next(d, run[0]), run[1..])
  }

  ghost predicate AllSupplied(run: seq<Event>) {
    forall ev :: ev in run ==> Supplied(ev.call, ev.env)
  }

  ghost function TableReplies(t: Table, run: seq<Event>): seq<Option<Reply>>
    requires AllSupplied(run)
    decreases |run|
  {
    if run == [] then []
    else [if run[0].cut.None? then Some(TablePlan(t, run[0].call, run[0].env).reply) else None]
         + TableReplies(TableNext(t, run[0]), run[1..])
  }

  ghost function TableAfter(t: Table, run: seq<Event>): Table
    requires AllSupplied(run)
    decreases |run|
  {
    if run == [] then t else TableAfter(TableNext(t, run[0]), run[1..])
  }

  lemma {:induction false} RunSupplied(d: Disk, run: seq<Event>)
    requires IsRun(d, run)
    ensures AllSupplied(run)
    decreases |run|
  {
    hide Next;
    if run != [] {
      RunSupplied(Next(d, run[0]), run[1..]);
      assert run == [run[0]] + run[1..];
    }
  }

  /**
   * Crash refinement: over every run, with commits interrupted anywhere, the files reply exactly what the row table
   * replies, and stand for the table's state.
   */
  lemma {:induction false} RunRefines(d: Disk, run: seq<Event>)
    requires Inv(d) && IsRun(d, run)
    ensures AllSupplied(run)
    ensures Replies(d, run) == TableReplies(Abs(d), run)
    ensures Abs(After(d, run)) == TableAfter(Abs(d), run)
    decreases |run|
  {
    hide Inv, Next, TableNext, TablePlan, PlanOf, Abs;
    RunSupplied(d, run);
    if run != [] {
      PlansAgree(d, run[0]);
      EventRefines(d, run[0]);
      EventKeeps(d, run[0]);
      RunRefines(Next(d, run[0]), run[1..]);
    }
  }

  /** Nothing is lost: a row of the table stays in it, in exactly one of its two parts. */
  lemma NothingLost(d: Disk, run: seq<Event>, id: string)
    requires Inv(d) && IsRun(d, run)
    requires id in Ids(Abs(d).live.entries) || id in Abs(d).done
    ensures var t := Abs(After(d, run));
            (id in Ids(t.live.entries)) != (id in t.done)
    ensures id in Abs(d).done ==> id in Abs(After(d, run)).done && Abs(After(d, run)).done[id] == Abs(d).done[id]
  {
    hide Inv, Advances, LogIds;
    RunAdvances(d, run);
    DoneInLog(d, id);
    DoneInLog(After(d, run), id);
    VersionAdvances(d, After(d, run), id);
    if IsDone(d, id) {
      DoneStays(d, After(d, run), id);
    }
    LiveIds(d, id);
    LiveIds(After(d, run), id);
  }

  lemma LiveIds(d: Disk, id: string)
    ensures id in Ids(d.live.entries) <==> IsLive(d, id)
    ensures Abs(d).live == d.live
  {
  }
}
