/**
 * The plugin's own shape: a queue loaded into memory and changed in place, and a backend that serves each call from
 * the two files. Every method is shown to do what the machine plans for its call.
 */
module Backend {
  import opened Wrappers
  import opened Text
  import opened QueueState
  import opened QueueHistory
  import opened QueueService
  import opened FencedQueue
  import opened Machine
  import opened TornLog
  import opened QueueStore
  import opened Reordering
  import opened HandOutScan

  // ---------------------------------------------------------------------
  // The loaded queue
  // ---------------------------------------------------------------------

  class LoadedQueue {
    var entries: seq<Entry>
    var counters: map<string, nat>

    constructor (q: Queue)
      ensures Value() == q
    {
      entries, counters := q.entries, q.counters;
    }

    function Value(): Queue
      reads this
    {
      Queue(entries, counters)
    }

    /** `sweep_expired_entries`: drop what is past its window, with a record for each dropped row. */
    method SweepExpired(now: Instant) returns (finished: seq<Record>)
      modifies this
      ensures Value() == SweepQueue(old(Value()), now)
      ensures finished == SweepFinished(old(Value()), now)
    {
      hide Kept, Swept;
      NothingToSweep(now);
      var kept: seq<Entry> := [];
      finished := [];
      for i := 0 to |entries|
        invariant Value() == old(Value())
        invariant kept == Kept(entries[..i], now)
        invariant finished == SweepRecords(Swept(entries[..i], now), now)
      {
        var e := entries[i];
        assert entries[..i + 1][..i] == entries[..i];
        LastRow(entries[..i + 1], now);
        if e.status == Pending && ExpiryDeadline(e).Some? && now > ExpiryDeadline(e).value {
          RecordsAppended(Swept(entries[..i], now), e, now);
          finished := finished + [Finished(e, Dropped, "expiry-sweep", now)];
        } else {
          kept := kept + [e];
        }
      }
      assert entries[..|entries|] == entries;
      entries := kept;
    }

    /** `migrate_missing_entry_ids`: give a minted id to every row without one. */
    method MigrateMissingEntryIds(uuids: seq<string>) returns (migrated: bool)
      requires |entries| <= |uuids|
      modifies this
      ensures entries == Migrated(old(entries), uuids) && counters == old(counters)
      ensures migrated <==> exists e :: e in old(entries) && Nameless(e)
    {
      migrated := false;
      ghost var before := entries;
      for i := 0 to |entries|
        invariant counters == old(counters) && |entries| == |before|
        invariant forall j :: 0 <= j < i ==> entries[j] == Migrated(before, uuids)[j]
        invariant forall j :: i <= j < |entries| ==> entries[j] == before[j]
        invariant migrated <==> exists j :: 0 <= j < i && Nameless(before[j])
      {
        if Trim(entries[i].id) == "" {
          entries := entries[i := entries[i].(id := uuids[i])];
          migrated := true;
        }
      }
    }

    /** `next_subject_generation`: mint the subject's next number and remember it. */
    method NextSubjectGeneration(subject: string) returns (generation: nat)
      modifies this
      ensures generation == NextGeneration(old(Value()), subject)
      ensures Value() == Counted(old(Value()), subject)
    {
      var recorded := if subject in counters then counters[subject] else 0;
      var live := LiveMax(entries, subject);
      generation := (if recorded < live then live else recorded) + 1;
      counters := counters[subject := generation];
    }

    /** `ensure_ticket_identity`. */
    method EnsureTicketIdentity(i: nat) returns (subject: Option<SubjectGeneration>)
      requires i < |entries|
      modifies this
      ensures match EnsureIdentity(old(Value()), i)
              case None => subject.None? && Value() == old(Value())
              case Some(r) => subject == Some(r.subject) && Value() == r.queue
    {
      var e := entries[i];
      if e.subjectGen.Some? && e.subject.Some? {
        return Some(SubjectGeneration(e.subject.value, e.subjectGen.value));
      }
      if e.dispatch.None? || e.dispatch.value.canonicalId.None? {
        return None;
      }
      var qualifiedId := e.dispatch.value.canonicalId.value;
      var generation := NextSubjectGeneration(qualifiedId);
      entries := entries[i := e.(subject := Some(qualifiedId), subjectGen := Some(generation))];
      return Some(SubjectGeneration(qualifiedId, generation));
    }

    /** Drop the row at `i`. */
    method Remove(i: nat) returns (e: Entry)
      requires i < |entries|
      modifies this
      ensures e == old(entries)[i] && Value() == WithoutRow(old(Value()), i)
    {
      e := entries[i];
      entries := entries[..i] + entries[i + 1..];
    }

    /** Change the row at `i`. */
    method Set(i: nat, e: Entry)
      requires i < |entries|
      modifies this
      ensures Value() == WithRow(old(Value()), i, e)
    {
      entries := entries[i := e];
    }
  }

  // ---------------------------------------------------------------------
  // The backend
  // ---------------------------------------------------------------------

  /** The call was served as planned. */
  ghost predicate Served(before: Disk, after: Disk, call: Call, env: Env, reply: Reply) {
    && Supplied(call, env)
    && reply == PlanOf(before, call, env).reply
    && after == Machine.Commit(before, PlanOf(before, call, env))
  }

  /** The ticket call was served as planned for the live row at `i`. */
  ghost predicate ServedOnRow(before: Disk, after: Disk, i: nat, fence: Fence, op: TicketOp, env: Env, reply: Reply) {
    && i < |before.live.entries| && ValidTicket(fence, op)
    && reply == PlanOnRow(before.live, i, fence, op, env).reply
    && after == Machine.Commit(before, PlanOnRow(before.live, i, fence, op, env))
  }

  class QueueBackend {
    const codec: Codec<Record>
    var file: Queue
    const history: HistoryFile<Record>

    constructor (codec: Codec<Record>, file: Queue)
      requires Sound(codec)
      ensures Valid() && this.file == file && Files() == Disk(file, []) && fresh(history)
    {
      this.codec := codec;
      this.file := file;
      history := new HistoryFile(codec);
    }

    ghost predicate Valid()
      reads history
    {
      history.codec == codec && Sound(codec)
    }

    ghost function Files(): Disk
      reads this, history
    {
      Disk(file, Read(history.codec, history.bytes))
    }

    /** `load_queue_state`: the queue, written back first if rows had no id. */
    method Open(uuids: seq<string>) returns (state: LoadedQueue)
      requires Valid() && |file.entries| <= |uuids|
      modifies this
      ensures fresh(state) && state.Value() == file
      ensures file == old(file).(entries := Migrated(old(file).entries, uuids))
      ensures AllNamed(old(file).entries) ==> file == old(file)
    {
      state := new LoadedQueue(file);
      var migrated := state.MigrateMissingEntryIds(uuids);
      if migrated {
        Save(state);
      }
    }

    /** The same, once every row has an id: `Open` then changes nothing, and later loads never do. */
    method Load() returns (state: LoadedQueue)
      ensures fresh(state) && state.Value() == file
    {
      state := new LoadedQueue(file);
    }

    /** `save_queue_state`: all or nothing. */
    method Save(state: LoadedQueue)
      modifies this
      ensures file == state.Value()
    {
      file := state.Value();
    }

    /** `commit`. */
    method Commit(state: LoadedQueue, finished: seq<Record>)
      requires Valid()
      modifies this, history
      ensures Valid() && Files() == Disk(state.Value(), old(Files()).log + finished)
    {
      ghost var before := history.bytes;
      CutAppend(codec, before, finished, |Payload(codec, before, finished)|);
      history.AppendHistory(finished);
      assert Payload(codec, before, finished)[..|Payload(codec, before, finished)|] == Payload(codec, before, finished);
      assert finished[..|finished|] == finished;
      Save(state);
    }

    method FindByEntryId(id: string) returns (found: Option<Record>)
      requires Valid()
      ensures found == LastForEntry(Files().log, id)
    {
      found := history.FindLast((r: Record) => r.entry.id == id);
      LastMatchSame(Files().log, (r: Record) => r.entry.id == id, (r: Record) => r.entry.id == id);
    }

    method FindByIdempotencyKey(key: string) returns (found: Option<Record>)
      requires Valid()
      ensures found == LastForKey(Files().log, key)
    {
      found := history.FindLast((r: Record) => HoldsKey(r.entry, key));
      LastMatchSame(Files().log, (r: Record) => HoldsKey(r.entry, key), (r: Record) => HoldsKey(r.entry, key));
    }

    // -------------------------------------------------------------------
    // Ticketed calls
    // -------------------------------------------------------------------

    /** `idempotent_receipt`: the live, just-swept or finished row that holds the key. */
    method FindHolder(state: LoadedQueue, swept: seq<Record>, key: string) returns (holder: Option<Entry>)
      requires Valid()
      ensures holder == (var current := CurrentHolder(state.entries, swept, key);
                         if current.Some? then current
                         else
                           var past := LastForKey(Files().log, key);
                           if past.Some? then Some(past.value.entry) else None)
    {
      var p := KeyHolder(state.entries, key);
      if p.Some? {
        return Some(state.entries[p.value]);
      }
      holder := SweptHolder(swept, key);
      if holder.None? {
        var past := FindByIdempotencyKey(key);
        if past.Some? {
          holder := Some(past.value.entry);
        }
      }
    }

    method EnqueueV2(add: AddRequest, env: Env) returns (reply: Reply)
      requires Valid()
      modifies this, history
      ensures Valid() && Served(old(Files()), Files(), Call.EnqueueV2(add), env, reply)
    {
      hide SweepQueue, SweepFinished, CurrentHolder, LastForKey, NextGeneration, Sound, Read;
      if !Acceptable(add) {
        return InvalidParams;
      }
      var subject := add.dispatch.canonicalId.value;
      var key := TrimmedKey(add);
      var state := Load();
      var finished := state.SweepExpired(env.now);
      if key.Some? {
        var holder := FindHolder(state, finished, key.value);
        if holder.Some? {
          reply := ReceiptFor(holder.value, key.value, add.hash);
          if reply.Receipt? && finished != [] {
            Commit(state, finished);
          }
          return;
        }
      }
      var live := LiveEntryForSubject(state.entries, subject);
      if live.Some? {
        var identity := state.EnsureTicketIdentity(live.value);
        if identity.None? {
          return InvalidParams;
        }
        var e := state.entries[live.value];
        if key.Some? {
          e := e.(extraKeys := e.extraKeys + [Binding(key.value, add.hash)]);
          state.Set(live.value, e);
        }
        Commit(state, finished);
        return Receipt(false, e.id, identity.value, true);
      }
      var generation := state.NextSubjectGeneration(subject);
      state.entries := state.entries + [NewEntry(env.entryId, add, generation)];
      Commit(state, finished);
      return Receipt(true, env.entryId, SubjectGeneration(subject, generation), false);
    }

    method LeaseV2(req: LeaseRequest, env: Env) returns (reply: Reply)
      requires Valid()
      modifies this, history
      ensures Valid() && Served(old(Files()), Files(), Call.LeaseV2(req), env, reply)
    {
      hide SweepQueue, SweepFinished, Sound, Read, FullScan, ValidLease;
      if !ValidLease(req) {
        return InvalidParams;
      }
      var state := Load();
      var finished := state.SweepExpired(env.now);
      ghost var scan := FullScan(state.Value(), finished, req, env.now, env.now + env.ttlLimit * SECOND);
      var leased, blocked, changed := HandOutBatch(state, finished, req, env);
      if changed {
        Commit(state, finished);
      }
      return Granted(leased, blocked);
    }

    /** The hand-out loop over the swept queue. */
    method HandOutBatch(state: LoadedQueue, finished: seq<Record>, req: LeaseRequest, env: Env)
      returns (leased: seq<Grant>, blocked: seq<Block>, changed: bool)
      modifies state
      ensures var scan := FullScan(old(state.Value()), finished, req, env.now, env.now + env.ttlLimit * SECOND);
              scan.queue == state.Value() && scan.leased == leased && scan.blocked == blocked && scan.changed == changed
    {
      hide Candidates, CandidateCap, Conflict, ExecutionFence, HandedOut, EnsureIdentity;
      hide ScanAfter, Decisions, Decide, Trim;
      var expires := env.now + env.ttlLimit * SECOND;
      var candidates := Candidates(state.entries, 0, CandidateCap(req.max), env.now);
      leased, blocked, changed := [], [], finished != [];
      var used := 0;
      ghost var start := ScanStart(state.Value(), finished);
      ScanStarts(start, candidates, req, env.now, expires);
      for k := 0 to |candidates|
        invariant |state.entries| == |start.queue.entries|
        invariant Scan(state.Value(), used, leased, blocked, changed, false)
                  == ScanAfter(start, candidates, k, req, env.now, expires)
      {
        ghost var before := Scan(state.Value(), used, leased, blocked, changed, false);
        ScanTurns(start, candidates, k, req, env.now, expires);
        if |leased| >= req.max {
          ScanStops(start, candidates, k, |candidates|, req, env.now, expires);
          break;
        }
        var i := candidates[k];
        var waiting := state.entries[i];
        var identity: Option<SubjectGeneration> := None;
        if waiting.dispatch.Some? {
          identity := state.EnsureTicketIdentity(i);
        }
        if identity.None? {
          blocked := blocked + [Block(waiting.id, MissingExecutionIdentity, None)];
          continue;
        }
        changed := changed || !Ticketed(waiting);
        var conflict := Conflict(state.entries, i, identity.value, req.exclude);
        if conflict.Some? {
          blocked := blocked + [conflict.value];
          continue;
        }
        var e := state.entries[i];
        var takesFresh := NonEmpty(e.workflowId).None?;
        if takesFresh && |req.workflowIds| <= used {
          ScanStops(start, candidates, k + 1, |candidates|, req, env.now, expires);
          break;
        }
        var workflowId := if takesFresh then req.workflowIds[used] else e.workflowId.value;
        state.Set(i, HandedOut(e, workflowId, Trim(req.owner), env.now, expires));
        var fence := ExecutionFence(state.entries[i]);
        if fence.None? {
          state.Set(i, e);
          blocked := blocked + [Block(e.id, MissingExecutionIdentity, None)];
          continue;
        }
        if takesFresh {
          used := used + 1;
        }
        changed := true;
        leased := leased + [Grant(state.entries[i], fence.value)];
      }
    }

    /** `finished_entry_outcome`. */
    method FinishedEntryOutcome(fence: Fence, op: TicketOp) returns (reply: Reply)
      requires Valid() && fence.lease.Some?
      ensures reply == FinishedOutcome(LastForEntry(Files().log, fence.lease.value.entryId), fence, op)
    {
      var past := FindByEntryId(fence.lease.value.entryId);
      if past.None? {
        return Mutation(NotFound, None);
      }
      if op.Complete? && past.value.outcome != Dropped && ExactFenceMatches(past.value.entry, fence) {
        return Mutation(AlreadyApplied, ExecutionFence(past.value.entry));
      }
      return Mutation(NotAssigned, None);
    }

    /** `fenced_mutation`: what the four ticket calls share. */
    method FencedMutation(fence: Fence, op: TicketOp, env: Env) returns (reply: Reply)
      requires Valid()
      modifies this, history
      ensures Valid() && Served(old(Files()), Files(), Ticket(fence, op), env, reply)
    {
      hide Sound, Read, LastForEntry, ExactFenceMatches, ExecutionFence, PlanOnRow;
      if !ValidTicket(fence, op) {
        return InvalidParams;
      }
      var state := Load();
      var p := Position(state.entries, fence.lease.value.entryId);
      if p.None? {
        reply := FinishedEntryOutcome(fence, op);
        return;
      }
      reply := MutateTicketed(state, p.value, fence, op, env);
    }

    /** The same, for an entry that is live. */
    method MutateTicketed(state: LoadedQueue, i: nat, fence: Fence, op: TicketOp, env: Env) returns (reply: Reply)
      requires Valid() && state.Value() == file && i < |state.entries| && ValidTicket(fence, op)
      modifies this, history, state
      ensures Valid() && ServedOnRow(old(Files()), Files(), i, fence, op, env, reply)
    {
      hide Sound, Read, ExactFenceMatches, ExecutionFence;
      var e := state.entries[i];
      if op.PutBack? && e.status == Pending && ExactFenceMatches(e, fence) {
        return Mutation(AlreadyApplied, None);
      }
      if e.status != Assigned {
        return Mutation(NotAssigned, None);
      }
      if !ExactFenceMatches(e, fence) {
        return Mutation(StaleFence, None);
      }
      match op {
        case Recover(newOwner, ttl) => reply := RecoverLease(state, i, fence, op, env);
        case Renew(ttl) => reply := RenewLease(state, i, fence, op, env);
        case Complete(status) =>
          var done := state.Remove(i);
          Commit(state, [Finished(done, OutcomeOf(status).value, "queue/v2/completion", env.now)]);
          return Mutation(Applied, ExecutionFence(done));
        case PutBack =>
          state.Set(i, e.(status := Pending, assignedAt := None));
          Commit(state, []);
          return Mutation(Applied, None);
      }
    }

    method RecoverLease(state: LoadedQueue, i: nat, fence: Fence, op: TicketOp, env: Env) returns (reply: Reply)
      requires Valid() && state.Value() == file && i < |state.entries| && ValidTicket(fence, op) && op.Recover?
      requires state.entries[i].status == Assigned && ExactFenceMatches(state.entries[i], fence)
      modifies this, history, state
      ensures Valid() && ServedOnRow(old(Files()), Files(), i, fence, op, env, reply)
    {
      hide Sound, Read, ExactFenceMatches, ExecutionFence;
      var e, newOwner := state.entries[i], Trim(op.newOwner);
      if newOwner == "" || e.owner == Some(newOwner) {
        return InvalidParams;
      }
      if LeaseIsLive(e, env.now) {
        return Mutation(LeaseStillLive, ExecutionFence(e));
      }
      var expires := env.now + RequestedTtl(op.ttl, env.ttlLimit) * SECOND;
      e := e.(owner := Some(newOwner), leaseGen := e.leaseGen + 1, expiresAt := Some(expires));
      state.Set(i, e);
      Commit(state, []);
      return Mutation(Applied, ExecutionFence(e));
    }

    method RenewLease(state: LoadedQueue, i: nat, fence: Fence, op: TicketOp, env: Env) returns (reply: Reply)
      requires Valid() && state.Value() == file && i < |state.entries| && ValidTicket(fence, op) && op.Renew?
      requires state.entries[i].status == Assigned && ExactFenceMatches(state.entries[i], fence)
      modifies this, history, state
      ensures Valid() && ServedOnRow(old(Files()), Files(), i, fence, op, env, reply)
    {
      hide Sound, Read, ExactFenceMatches, ExecutionFence;
      var e := state.entries[i];
      if !LeaseIsLive(e, env.now) {
        return Mutation(StaleFence, None);
      }
      var renewed := env.now + RequestedTtl(op.ttl, env.ttlLimit) * SECOND;
      if e.expiresAt.value < renewed {
        e := e.(expiresAt := Some(renewed));
      }
      state.Set(i, e);
      Commit(state, []);
      return Mutation(Applied, ExecutionFence(e));
    }

    // -------------------------------------------------------------------
    // Old-style calls
    // -------------------------------------------------------------------

    method Enqueue(dispatch: Dispatch, runAt: Option<TimeText>, expireAfter: Option<nat>, env: Env)
      returns (reply: Reply)
      requires Valid()
      modifies this, history
      ensures Valid() && Served(old(Files()), Files(), Call.Enqueue(dispatch, runAt, expireAfter), env, reply)
    {
      hide SweepQueue, SweepFinished, Sound, Read;
      if dispatch.legacyKey.None? {
        return InvalidParams;
      }
      var readable := if runAt.Some? && runAt.value.instant.Some? then runAt else None;
      var state := Load();
      var finished := state.SweepExpired(env.now);
      var duplicates := Duplicates(state.entries, dispatch.legacyKey.value);
      state.entries := state.entries + [FromDispatch(env.entryId, dispatch, readable, expireAfter)];
      Commit(state, finished);
      return Added(env.entryId, dispatch.legacyKey.value, duplicates);
    }

    method Lease(max: nat, workflowIds: Option<seq<string>>, exclude: seq<string>, env: Env) returns (reply: Reply)
      requires Valid() && max <= |env.workflowIds|
      modifies this, history
      ensures Valid() && Served(old(Files()), Files(), Call.Lease(max, workflowIds, exclude), env, reply)
    {
      hide SweepQueue, SweepFinished, Sound, Read, Choose, AssignSlots;
      if workflowIds.Some? && |workflowIds.value| != max {
        return WorkflowIdCountMismatch(max, |workflowIds.value|);
      }
      if max == 0 {
        return Leased([]);
      }
      var state := Load();
      var finished := state.SweepExpired(env.now);
      var chosen := TakeRows(state, max, exclude, env.now);
      Effects.ChooseRows(state.entries, 0, Subjects(exclude), max, env.now);
      var leased := AssignRows(state, chosen, workflowIds, env);
      if leased != [] || finished != [] {
        Commit(state, finished);
      }
      return Leased(leased);
    }

    /** The first loop of the hand-out: the rows to give. */
    method TakeRows(state: LoadedQueue, max: nat, exclude: seq<string>, now: Instant) returns (chosen: seq<nat>)
      ensures chosen == Choose(state.entries, 0, Subjects(exclude), max, now)
      ensures |chosen| <= max
    {
      hide SubjectIdRef, IsDeferred, Choose, Subjects;
      var entries := state.entries;
      var taken := Subjects(exclude);
      chosen := [];
      for i := 0 to |entries|
        invariant |chosen| <= max
        invariant Choose(entries, 0, Subjects(exclude), max, now)
                  == chosen + Choose(entries, i, taken, max - |chosen|, now)
      {
        ChooseStep(entries, i, taken, max - |chosen|, now);
        if |chosen| == max {
          break;
        }
        var e := entries[i];
        if Ticketed(e) {
          continue;
        }
        var due := e.status == Pending && !IsDeferred(e, now);
        var expired := e.status == Assigned && e.expiresAt.Some? && e.expiresAt.value < now;
        if (!due && !expired) || e.dispatch.None? || SubjectIdRef(e) in taken {
          continue;
        }
        taken := taken + {SubjectIdRef(e)};
        chosen := chosen + [i];
      }
      ChooseEnds(entries, taken, now);
    }

    /** The second loop: each chosen row gets its slot's workflow. */
    method AssignRows(state: LoadedQueue, chosen: seq<nat>, workflowIds: Option<seq<string>>, env: Env)
      returns (leased: seq<Entry>)
      requires |chosen| <= |env.workflowIds|
      requires workflowIds.Some? ==> |chosen| <= |workflowIds.value|
      requires forall k :: 0 <= k < |chosen| ==> chosen[k] < |state.entries|
      requires forall k, l :: 0 <= k < l < |chosen| ==> chosen[k] < chosen[l]
      modifies state
      ensures state.counters == old(state.counters)
      ensures state.entries == AssignSlots(old(state.entries), chosen, |chosen|, workflowIds, env.workflowIds, env.now,
                                           env.now + env.ttlLimit * SECOND)
      ensures leased == Pick(state.entries, chosen)
    {
      hide AssignSlots, SlotWorkflow, NonEmpty;
      ghost var swept := state.entries;
      var expires := env.now + env.ttlLimit * SECOND;
      leased := [];
      Effects.SlotsStart(swept, chosen, workflowIds, env);
      for slot := 0 to |chosen|
        invariant state.counters == old(state.counters) && |state.entries| == |swept|
        invariant state.entries == AssignSlots(swept, chosen, slot, workflowIds, env.workflowIds, env.now, expires)
        invariant |leased| == slot && forall k :: 0 <= k < slot ==> leased[k] == state.entries[chosen[k]]
      {
        Effects.SlotsStep(swept, chosen, slot, workflowIds, env);
        var e := state.entries[chosen[slot]];
        var given := OldStyleAssigned(e, SlotWorkflow(e, slot, workflowIds, env.workflowIds), env.now, expires);
        state.Set(chosen[slot], given);
        leased := leased + [given];
      }
    }

    /** `mutate_entry`: change one row, and save if it changed. */
    method MutateEntry(id: string, edit: Entry -> (Entry, Reply)) returns (reply: Reply)
      requires Valid()
      requires forall e :: edit(e).1 != Changed(true, false) ==> edit(e).0 == e
      modifies this, history
      ensures Valid() && history.bytes == old(history.bytes)
      ensures reply == PlanRow(old(file), id, edit).reply && file == PlanRow(old(file), id, edit).queue
    {
      var state := Load();
      var p := Position(state.entries, id);
      if p.None? {
        return Changed(false, true);
      }
      var (after, answer) := edit(state.entries[p.value]);
      state.Set(p.value, after);
      if answer == Changed(true, false) {
        Save(state);
      }
      return answer;
    }

    method Hold(id: string, env: Env) returns (reply: Reply)
      requires Valid()
      modifies this, history
      ensures Valid() && Served(old(Files()), Files(), Call.Hold(id), env, reply)
    {
      reply := MutateEntry(id, e => EditHold(e, env.now));
    }

    method Release(id: string, env: Env) returns (reply: Reply)
      requires Valid()
      modifies this, history
      ensures Valid() && Served(old(Files()), Files(), Call.Release(id), env, reply)
    {
      reply := MutateEntry(id, e => EditRelease(e));
    }

    method MarkAssigned(id: string, workflowId: Option<string>, env: Env) returns (reply: Reply)
      requires Valid()
      modifies this, history
      ensures Valid() && Served(old(Files()), Files(), Call.MarkAssigned(id, workflowId), env, reply)
    {
      var given := if workflowId.Some? then workflowId.value else env.entryId;
      reply := MutateEntry(id, e => EditMarkAssigned(e, given, env));
    }

    method ReleasePending(id: string, env: Env) returns (reply: Reply)
      requires Valid()
      modifies this, history
      ensures Valid() && Served(old(Files()), Files(), Call.ReleasePending(id), env, reply)
    {
      var state := Load();
      var p := Position(state.entries, id);
      if p.None? {
        return UnknownEntry;
      }
      var e := state.entries[p.value];
      if Ticketed(e) {
        return Fenced;
      }
      if e.status != Assigned {
        return NotAssignedButIn(e.status);
      }
      state.Set(p.value, PutBackOldStyle(e));
      Save(state);
      return PutBackToPending;
    }

    method DropEntry(id: string, env: Env) returns (reply: Reply)
      requires Valid()
      modifies this, history
      ensures Valid() && Served(old(Files()), Files(), Call.DropEntry(id), env, reply)
    {
      hide Sound, Read;
      var state := Load();
      var p := Position(state.entries, id);
      if p.None? {
        return Changed(false, true);
      }
      var dropped := state.Remove(p.value);
      Commit(state, [Finished(dropped, Dropped, "queue/drop", env.now)]);
      return Changed(true, false);
    }

    method Completion(id: string, status: string, workflowRef: Option<string>, doneBy: Option<string>, env: Env)
      returns (reply: Reply)
      requires Valid()
      modifies this, history
      ensures Valid() && Served(old(Files()), Files(), Call.Completion(id, status, workflowRef, doneBy), env, reply)
    {
      hide Sound, Read;
      var outcome := OutcomeOf(status);
      if outcome.None? {
        return BackendError;
      }
      var state := Load();
      var p := CompletionTarget(state.entries, id, workflowRef, doneBy);
      if p.None? {
        return Changed(false, true);
      }
      var done := state.Remove(p.value);
      Commit(state, [Finished(done, outcome.value, "queue/completion", env.now)]);
      return Changed(true, false);
    }

    method Reorder(ids: seq<string>, env: Env) returns (reply: Reply)
      requires Valid()
      modifies this, history
      ensures Valid() && Served(old(Files()), Files(), Call.Reorder(ids), env, reply)
    {
      hide Sound, Read, NewOrder, Moved, Pick;
      var state := Load();
      OrderBounds(state.entries, ids);
      var reordered := Rearrange(state.entries, ids);
      var count := CountMoved(state.entries, reordered);
      if count != 0 {
        state.entries := reordered;
        Save(state);
      }
      return Reordered(count);
    }

    /** The named rows are pulled to the front, then the rest follows. */
    method Rearrange(entries: seq<Entry>, ids: seq<string>) returns (reordered: seq<Entry>)
      ensures Within(NewOrder(entries, ids), |entries|)
      ensures reordered == Pick(entries, NewOrder(entries, ids))
    {
      hide Pulled, Rest, Pick, Marked;
      var consumed := new bool[|entries|](_ => false);
      NothingMarked(consumed[..]);
      PulledWithin(entries, ids, {});
      RestWithin(SetOf(Pulled(entries, ids, {})), 0, |entries|);
      PickConcat(entries, Pulled(entries, ids, {}), Rest(SetOf(Pulled(entries, ids, {})), 0, |entries|));
      reordered := PullNamed(entries, ids, consumed);
      reordered := AppendRest(entries, consumed, reordered);
    }

    method PullNamed(entries: seq<Entry>, ids: seq<string>, consumed: array<bool>) returns (pulled: seq<Entry>)
      requires consumed.Length == |entries| && Marked(consumed[..]) == {}
      modifies consumed
      ensures Within(Pulled(entries, ids, {}), |entries|) && pulled == Pick(entries, Pulled(entries, ids, {}))
      ensures Marked(consumed[..]) == SetOf(Pulled(entries, ids, {}))
    {
      hide Pulled, FirstFree, Pick, Marked;
      ghost var order: seq<nat> := [];
      pulled := [];
      PickNothing(entries);
      for k := 0 to |ids|
        invariant Within(order, |entries|) && pulled == Pick(entries, order)
        invariant SetOf(order) == Marked(consumed[..])
        invariant Pulled(entries, ids, {}) == order + Pulled(entries, ids[k..], Marked(consumed[..]))
      {
        PulledStep(entries, ids[k..], Marked(consumed[..]));
        assert ids[k..][1..] == ids[k + 1..];
        var p := TakeFirst(entries, ids[k], consumed);
        if p.Some? {
          PickOne(entries, p.value);
          PickConcat(entries, order, [p.value]);
          pulled := pulled + [entries[p.value]];
          order := order + [p.value];
        }
      }
      assert ids[|ids|..] == [];
      PulledNothing(entries, Marked(consumed[..]));
      assert order == Pulled(entries, ids, {});
    }

    method AppendRest(entries: seq<Entry>, consumed: array<bool>, pulled: seq<Entry>) returns (reordered: seq<Entry>)
      requires consumed.Length == |entries|
      ensures Within(Rest(Marked(consumed[..]), 0, |entries|), |entries|)
      ensures reordered == pulled + Pick(entries, Rest(Marked(consumed[..]), 0, |entries|))
    {
      hide Rest, Pick, Marked;
      ghost var moved := Marked(consumed[..]);
      ghost var behind: seq<nat> := [];
      reordered := pulled;
      PickNothing(entries);
      for i := 0 to |entries|
        invariant Within(behind, |entries|) && reordered == pulled + Pick(entries, behind)
        invariant Rest(moved, 0, |entries|) == behind + Rest(moved, i, |entries|)
      {
        RestStep(moved, i, |entries|);
        MarkedAt(consumed[..], i);
        if consumed[i] {
          assert [] + Rest(moved, i + 1, |entries|) == Rest(moved, i + 1, |entries|);
        } else {
          PickOne(entries, i);
          PickConcat(entries, behind, [i]);
          reordered := reordered + [entries[i]];
          behind := behind + [i];
        }
      }
      RestNothing(moved, |entries|);
      assert behind == Rest(moved, 0, |entries|);
    }

    /** Mark and return the first row with this id that was not moved yet. */
    method TakeFirst(entries: seq<Entry>, id: string, consumed: array<bool>) returns (p: Option<nat>)
      requires consumed.Length == |entries|
      modifies consumed
      ensures p == FirstFree(entries, id, Marked(old(consumed[..])), 0)
      ensures Marked(consumed[..]) == Marked(old(consumed[..])) + if p.Some? then {p.value} else {}
    {
      hide FirstFree, Marked;
      ghost var before := Marked(consumed[..]);
      for i := 0 to |entries|
        invariant consumed[..] == old(consumed[..])
        invariant FirstFree(entries, id, before, 0) == FirstFree(entries, id, before, i)
      {
        FreeStep(entries, id, before, i);
        MarkedAt(consumed[..], i);
        if consumed[i] {
          continue;
        }
        if entries[i].id != id {
          continue;
        }
        MarkOne(consumed[..], i);
        consumed[i] := true;
        assert consumed[..] == old(consumed[..])[i := true];
        return Some(i);
      }
      FreeNowhere(entries, id, before);
      return None;
    }

    /** How many positions hold another id than before. */
    method CountMoved(before: seq<Entry>, after: seq<Entry>) returns (count: nat)
      requires |before| == |after|
      ensures count == Moved(before, after)
    {
      count := 0;
      for i := 0 to |before|
        invariant count == Moved(before[..i], after[..i])
      {
        assert before[..i + 1][..i] == before[..i] && after[..i + 1][..i] == after[..i];
        if after[i].id != before[i].id {
          count := count + 1;
        }
      }
      assert before[..|before|] == before && after[..|before|] == after;
    }

    method NextDeadline(env: Env) returns (reply: Reply)
      requires Valid()
      modifies this, history
      ensures Valid() && Served(old(Files()), Files(), Call.NextDeadline, env, reply)
    {
      hide SweepQueue, SweepFinished, Sound, Read;
      var state := Load();
      var finished := state.SweepExpired(env.now);
      reply := Deadline(NextRunAt(state.entries, env.now));
      if finished != [] {
        Commit(state, finished);
      }
    }
  }

  /** Once the batch is full or ids ran out, the rest of the scan changes nothing. */
  lemma {:induction false} ScanStops(start: Scan, c: seq<nat>, n: nat, m: nat, req: LeaseRequest,
                                     now: Instant, expires: Instant)
    requires n <= m <= |c|
    requires forall k :: 0 <= k < |c| ==> c[k] < |start.queue.entries|
    requires var t := ScanAfter(start, c, n, req, now, expires); req.max <= |t.leased| || t.outOfIds
    ensures ScanAfter(start, c, m, req, now, expires) == ScanAfter(start, c, n, req, now, expires)
    decreases m
  {
    hide ScanAfter, Visit;
    if n < m {
      ScanStops(start, c, n, m - 1, req, now, expires);
      ScanTurns(start, c, m - 1, req, now, expires);
    }
  }

  // ---------------------------------------------------------------------
  // The reorder loops
  // ---------------------------------------------------------------------

  ghost function Marked(flags: seq<bool>): set<nat> {
    set i: nat | i < |flags| && flags[i]
  }

  lemma NothingMarked(flags: seq<bool>)
    requires forall i :: 0 <= i < |flags| ==> !flags[i]
    ensures Marked(flags) == {}
  {
  }

  lemma MarkedAt(flags: seq<bool>, i: nat)
    requires i < |flags|
    ensures i in Marked(flags) <==> flags[i]
  {
  }

  lemma MarkOne(flags: seq<bool>, i: nat)
    requires i < |flags|
    ensures Marked(flags[i := true]) == Marked(flags) + {i}
  {
  }

  lemma FreeStep(entries: seq<Entry>, id: string, consumed: set<nat>, i: nat)
    requires i < |entries|
    ensures FirstFree(entries, id, consumed, i)
            == if i !in consumed && entries[i].id == id then Some(i) else FirstFree(entries, id, consumed, i + 1)
  {
  }

  lemma FreeNowhere(entries: seq<Entry>, id: string, consumed: set<nat>)
    ensures FirstFree(entries, id, consumed, |entries|) == None
  {
  }

  lemma PulledStep(entries: seq<Entry>, ids: seq<string>, consumed: set<nat>)
    requires ids != []
    ensures var p := FirstFree(entries, ids[0], consumed, 0);
            Pulled(entries, ids, consumed)
            == if p.None? then Pulled(entries, ids[1..], consumed)
               else [p.value] + Pulled(entries, ids[1..], consumed + {p.value})
  {
  }

  lemma PulledNothing(entries: seq<Entry>, consumed: set<nat>)
    ensures Pulled(entries, [], consumed) == []
  {
  }

  lemma RestStep(consumed: set<nat>, i: nat, n: nat)
    requires i < n
    ensures Rest(consumed, i, n) == (if i in consumed then [] else [i]) + Rest(consumed, i + 1, n)
  {
  }

  lemma RestNothing(consumed: set<nat>, n: nat)
    ensures Rest(consumed, n, n) == []
  {
  }

  lemma PickNothing(entries: seq<Entry>)
    ensures Within([], |entries|) && Pick(entries, []) == []
  {
  }

  lemma PickOne(entries: seq<Entry>, i: nat)
    requires i < |entries|
    ensures Within([i], |entries|) && Pick(entries, [i]) == [entries[i]]
  {
  }
}
