/** The queue as a machine over its two files: what every call plans, and what a commit or a crash leaves. */
module Machine {
  import opened Wrappers
  import opened Text
  import opened QueueState
  import opened QueueHistory
  import opened QueueService
  import opened FencedQueue

  datatype Call =
    | EnqueueV2(add: AddRequest)
    | LeaseV2(lease: LeaseRequest)
    | Ticket(fence: Fence, op: TicketOp)
    | Enqueue(dispatch: Dispatch, runAt: Option<TimeText>, expireAfter: Option<nat>)
    | Lease(max: nat, workflowIds: Option<seq<string>>, exclude: seq<string>)
    | Hold(id: string)
    | Release(id: string)
    | DropEntry(id: string)
    | Reorder(ids: seq<string>)
    | MarkAssigned(id: string, workflowId: Option<string>)
    | Completion(id: string, status: string, workflowRef: Option<string>, doneBy: Option<string>)
    | ReleasePending(id: string)
    | NextDeadline

  /** What a call reads besides the files: the clock, the ticket length and freshly minted ids. */
  datatype Env = Env(now: Instant, ttlLimit: int, entryId: string, workflowIds: seq<string>)

  datatype Reply =
    | InvalidParams
    | BackendError
    | Receipt(enqueued: bool, entryId: string, subject: SubjectGeneration, warned: bool)
    | Granted(leased: seq<Grant>, blocked: seq<Block>)
    | Mutation(outcome: MutationOutcome, execution: Option<Fence>)
    | Added(entryId: string, subjectId: string, duplicates: nat)
    | Leased(entries: seq<Entry>)
    | WorkflowIdCountMismatch(expected: nat, actual: nat)
    | Changed(changed: bool, notFound: bool)
    | NotPending
    | Fenced
    | UnknownEntry
    | NotAssignedButIn(state: Status)
    | PutBackToPending
    | Reordered(count: nat)
    | Deadline(at: Option<Instant>)

  /** The queue to save, the records to append before saving it, and the reply. */
  datatype Plan = Plan(queue: Queue, finished: seq<Record>, reply: Reply)

  /** The two files. */
  datatype Disk = Disk(live: Queue, log: seq<Record>)

  function Unchanged(q: Queue, reply: Reply): Plan {
    Plan(q, [], reply)
  }

  // ---------------------------------------------------------------------
  // Ticketed calls
  // ---------------------------------------------------------------------

  /** The reply to an add whose key is already bound to `holder`. */
  function ReceiptFor(holder: Entry, key: string, hash: string): Reply {
    if BoundHash(holder, key) != Some(hash) then InvalidParams
    else if holder.subject.None? || holder.subjectGen.None? then BackendError
    else Receipt(false, holder.id, SubjectGeneration(holder.subject.value, holder.subjectGen.value), false)
  }

  /** The live, just-swept or finished row that holds the add's key. */
  function Holder(swept: Queue, finished: seq<Record>, past: Option<Record>, key: Option<string>): Option<Entry> {
    if key.None? then None
    else
      var current := CurrentHolder(swept.entries, finished, key.value);
      if current.Some? then current
      else if past.Some? then Some(past.value.entry)
      else None
  }

  function PlanEnqueueV2(q: Queue, past: Option<Record>, add: AddRequest, env: Env): Plan {
    if !Acceptable(add) then Unchanged(q, InvalidParams)
    else
      var swept := SweepQueue(q, env.now);
      var finished := SweepFinished(q, env.now);
      var key := TrimmedKey(add);
      var holder := Holder(swept, finished, past, key);
      if holder.Some? then
        var reply := ReceiptFor(holder.value, key.value, add.hash);
        if reply.Receipt? && finished != [] then Plan(swept, finished, reply) else Unchanged(q, reply)
      else PlanNewAdd(q, swept, finished, add, env)
  }

  /** An add whose key is new, or that has none. */
  function PlanNewAdd(q: Queue, swept: Queue, finished: seq<Record>, add: AddRequest, env: Env): Plan
    requires Acceptable(add)
  {
    var subject := add.dispatch.canonicalId.value;
    var live := LiveEntryForSubject(swept.entries, subject);
    if live.Some? then
      var identity := EnsureIdentity(swept, live.value);
      if identity.None? then Unchanged(q, InvalidParams)
      else
        var named := identity.value.queue;
        var e := Bound(named.entries[live.value], TrimmedKey(add), add.hash);
        Plan(named.(entries := named.entries[live.value := e]), finished,
             Receipt(false, e.id, identity.value.subject, true))
    else
      var generation := NextGeneration(swept, subject);
      var e := NewEntry(env.entryId, add, generation);
      Plan(Counted(swept, subject).(entries := swept.entries + [e]), finished,
           Receipt(true, env.entryId, SubjectGeneration(subject, generation), false))
  }

  /** What the external `validate()` and the batch limit demand. */
  predicate ValidLease(req: LeaseRequest) {
    && 1 <= req.max <= MAX_LEASE_BATCH
    && Trim(req.owner) != ""
    && |req.workflowIds| == req.max
    && (forall k :: 0 <= k < |req.workflowIds| ==> Trim(req.workflowIds[k]) != "")
    && (forall k, l :: 0 <= k < l < |req.workflowIds| ==> req.workflowIds[k] != req.workflowIds[l])
  }

  function PlanLeaseV2(q: Queue, req: LeaseRequest, env: Env): Plan {
    if !ValidLease(req) then Unchanged(q, InvalidParams)
    else
      var finished := SweepFinished(q, env.now);
      var scan := FullScan(SweepQueue(q, env.now), finished, req, env.now, env.now + env.ttlLimit * SECOND);
      var reply := Granted(scan.leased, scan.blocked);
      if scan.changed then Plan(scan.queue, finished, reply) else Unchanged(q, reply)
  }

  /** What the external `validate()` demands. */
  predicate ValidTicket(fence: Fence, op: TicketOp) {
    && fence.lease.Some?
    && (op.Renew? || op.Recover? ==> op.ttl != Some(0))
    && (op.Complete? ==> OutcomeOf(op.status).Some?)
  }

  /** The reply for a row that is no longer live. */
  function FinishedOutcome(past: Option<Record>, fence: Fence, op: TicketOp): Reply {
    if past.None? then Mutation(NotFound, None)
    else if op.Complete? && past.value.outcome != Dropped && ExactFenceMatches(past.value.entry, fence) then
      Mutation(AlreadyApplied, ExecutionFence(past.value.entry))
    else Mutation(NotAssigned, None)
  }

  function WithRow(q: Queue, i: nat, e: Entry): Queue
    requires i < |q.entries|
  {
    q.(entries := q.entries[i := e])
  }

  function WithoutRow(q: Queue, i: nat): Queue
    requires i < |q.entries|
  {
    q.(entries := Removed(q.entries, i))
  }

  function PlanTicket(q: Queue, past: Option<Record>, fence: Fence, op: TicketOp, env: Env): Plan {
    if !ValidTicket(fence, op) then Unchanged(q, InvalidParams)
    else
      var p := Position(q.entries, fence.lease.value.entryId);
      if p.None? then Unchanged(q, FinishedOutcome(past, fence, op))
      else PlanOnRow(q, p.value, fence, op, env)
  }

  function PlanOnRow(q: Queue, i: nat, fence: Fence, op: TicketOp, env: Env): Plan
    requires i < |q.entries| && ValidTicket(fence, op)
  {
    var e := q.entries[i];
    if op.PutBack? && e.status == Pending && ExactFenceMatches(e, fence) then
      Unchanged(q, Mutation(AlreadyApplied, None))
    else if e.status != Assigned then Unchanged(q, Mutation(NotAssigned, None))
    else if !ExactFenceMatches(e, fence) then Unchanged(q, Mutation(StaleFence, None))
    else
      match op
      case Recover(newOwner, ttl) =>
        if Trim(newOwner) == "" || e.owner == Some(Trim(newOwner)) then Unchanged(q, InvalidParams)
        else if LeaseIsLive(e, env.now) then Unchanged(q, Mutation(LeaseStillLive, ExecutionFence(e)))
        else
          var taken := TakenOver(e, Trim(newOwner), env.now + RequestedTtl(ttl, env.ttlLimit) * SECOND);
          Plan(WithRow(q, i, taken), [], Mutation(Applied, ExecutionFence(taken)))
      case Renew(ttl) =>
        if !LeaseIsLive(e, env.now) then Unchanged(q, Mutation(StaleFence, None))
        else
          var renewed := Renewed(e, env.now + RequestedTtl(ttl, env.ttlLimit) * SECOND);
          Plan(WithRow(q, i, renewed), [], Mutation(Applied, ExecutionFence(renewed)))
      case Complete(status) =>
        Plan(WithoutRow(q, i), [Finished(e, OutcomeOf(status).value, "queue/v2/completion", env.now)],
             Mutation(Applied, ExecutionFence(e)))
      case PutBack =>
        Plan(WithRow(q, i, PutBackTicketed(e)), [], Mutation(Applied, None))
  }

  // ---------------------------------------------------------------------
  // Old-style calls
  // ---------------------------------------------------------------------

  function PlanEnqueue(q: Queue, dispatch: Dispatch, runAt: Option<TimeText>, expireAfter: Option<nat>, env: Env)
    : Plan
  {
    if dispatch.legacyKey.None? then Unchanged(q, InvalidParams)
    else
      var readable := if runAt.Some? && runAt.value.instant.Some? then runAt else None;
      var swept := SweepQueue(q, env.now);
      var duplicates := Duplicates(swept.entries, dispatch.legacyKey.value);
      var e := FromDispatch(env.entryId, dispatch, readable, expireAfter);
      Plan(swept.(entries := swept.entries + [e]), SweepFinished(q, env.now),
           Added(env.entryId, dispatch.legacyKey.value, duplicates))
  }

  function PlanLease(q: Queue, max: nat, workflowIds: Option<seq<string>>, exclude: seq<string>, env: Env): Plan
    requires max <= |env.workflowIds|
  {
    if workflowIds.Some? && |workflowIds.value| != max then
      Unchanged(q, WorkflowIdCountMismatch(max, |workflowIds.value|))
    else if max == 0 then Unchanged(q, Leased([]))
    else
      var swept := SweepQueue(q, env.now);
      var finished := SweepFinished(q, env.now);
      var chosen := Choose(swept.entries, 0, Subjects(exclude), max, env.now);
      ChooseBounds(swept.entries, 0, Subjects(exclude), max, env.now);
      var entries := AssignSlots(swept.entries, chosen, |chosen|, workflowIds, env.workflowIds, env.now,
                                 env.now + env.ttlLimit * SECOND);
      if chosen != [] || finished != [] then Plan(swept.(entries := entries), finished, Leased(Pick(entries, chosen)))
      else Unchanged(q, Leased([]))
  }

  /** A call that edits one row in place and never sweeps. */
  function PlanRow(q: Queue, id: string, edit: Entry -> (Entry, Reply)): Plan {
    var p := Position(q.entries, id);
    if p.None? then Unchanged(q, Changed(false, true))
    else
      var (after, reply) := edit(q.entries[p.value]);
      Plan(WithRow(q, p.value, after), [], reply)
  }

  function EditHold(e: Entry, now: Instant): (Entry, Reply) {
    match e.status
    case Held => (e, Changed(false, false))
    case Pending => (e.(status := Held, heldAt := Some(now)), Changed(true, false))
    case Assigned => (e, NotPending)
    case Unknown => (e, NotPending)
  }

  function EditRelease(e: Entry): (Entry, Reply) {
    match e.status
    case Pending => (e, Changed(false, false))
    case Held => (e.(status := Pending, heldAt := None), Changed(true, false))
    case Assigned => (e, NotPending)
    case Unknown => (e, NotPending)
  }

  function EditMarkAssigned(e: Entry, workflowId: string, env: Env): (Entry, Reply) {
    if Ticketed(e) then (e, Fenced)
    else
      match e.status
      case Assigned => (e, Changed(false, false))
      case Pending =>
        (OldStyleAssigned(e, workflowId, env.now, env.now + env.ttlLimit * SECOND), Changed(true, false))
      case Held => (e, NotPending)
      case Unknown => (e, NotPending)
  }

  function EditReleasePending(e: Entry): (Entry, Reply) {
    if Ticketed(e) then (e, Fenced)
    else if e.status != Assigned then (e, NotAssignedButIn(e.status))
    else (PutBackOldStyle(e), PutBackToPending)
  }

  function PlanFinish(q: Queue, p: Option<nat>, outcome: Outcome, call: string, now: Instant): Plan
    requires p.Some? ==> p.value < |q.entries|
  {
    if p.None? then Unchanged(q, Changed(false, true))
    else Plan(WithoutRow(q, p.value), [Finished(q.entries[p.value], outcome, call, now)], Changed(true, false))
  }

  function PlanReorder(q: Queue, ids: seq<string>): Plan {
    var order := NewOrder(q.entries, ids);
    OrderBounds(q.entries, ids);
    var after := Pick(q.entries, order);
    var count := Moved(q.entries, after);
    if count == 0 then Unchanged(q, Reordered(0)) else Plan(q.(entries := after), [], Reordered(count))
  }

  // ---------------------------------------------------------------------
  // Every call
  // ---------------------------------------------------------------------

  predicate Supplied(call: Call, env: Env) {
    call.Lease? ==> call.max <= |env.workflowIds|
  }

  /** What `call` does, given the history record it finds (see `Recall`). */
  function Perform(q: Queue, past: Option<Record>, call: Call, env: Env): Plan
    requires Supplied(call, env)
  {
    match call
    case EnqueueV2(add) => PlanEnqueueV2(q, past, add, env)
    case LeaseV2(lease) => PlanLeaseV2(q, lease, env)
    case Ticket(fence, op) => PlanTicket(q, past, fence, op, env)
    case Enqueue(dispatch, runAt, expireAfter) => PlanEnqueue(q, dispatch, runAt, expireAfter, env)
    case Lease(max, workflowIds, exclude) => PlanLease(q, max, workflowIds, exclude, env)
    case Hold(id) => PlanRow(q, id, e => EditHold(e, env.now))
    case Release(id) => PlanRow(q, id, e => EditRelease(e))
    case DropEntry(id) => PlanFinish(q, Position(q.entries, id), Dropped, "queue/drop", env.now)
    case Reorder(ids) => PlanReorder(q, ids)
    case MarkAssigned(id, workflowId) =>
      var given := if workflowId.Some? then workflowId.value else env.entryId;
      PlanRow(q, id, e => EditMarkAssigned(e, given, env))
    case Completion(id, status, workflowRef, doneBy) =>
      if OutcomeOf(status).None? then Unchanged(q, BackendError)
      else PlanFinish(q, CompletionTarget(q.entries, id, workflowRef, doneBy), OutcomeOf(status).value,
                      "queue/completion", env.now)
    case ReleasePending(id) =>
      var plan := PlanRow(q, id, e => EditReleasePending(e));
      if plan.reply == Changed(false, true) then Unchanged(q, UnknownEntry) else plan
    case NextDeadline =>
      var swept := SweepQueue(q, env.now);
      var finished := SweepFinished(q, env.now);
      var reply := Deadline(NextRunAt(swept.entries, env.now));
      if finished != [] then Plan(swept, finished, reply) else Unchanged(q, reply)
  }

  // ---------------------------------------------------------------------
  // The two files
  // ---------------------------------------------------------------------

  /** The history record `call` looks up, if it has to look. */
  function Recall(d: Disk, call: Call, env: Env): Option<Record> {
    match call
    case EnqueueV2(add) =>
      if NeedsPastKey(d.live, add, env) then LastForKey(d.log, TrimmedKey(add).value) else None
    case Ticket(fence, op) =>
      if NeedsPastRow(d.live, fence) then LastForEntry(d.log, fence.lease.value.entryId) else None
    case _ => None
  }

  predicate NeedsPastKey(q: Queue, add: AddRequest, env: Env) {
    && TrimmedKey(add).Some?
    && CurrentHolder(SweepQueue(q, env.now).entries, SweepFinished(q, env.now), TrimmedKey(add).value).None?
  }

  predicate NeedsPastRow(q: Queue, fence: Fence) {
    fence.lease.Some? && Position(q.entries, fence.lease.value.entryId).None?
  }

  function PlanOf(d: Disk, call: Call, env: Env): Plan
    requires Supplied(call, env)
  {
    Perform(d.live, Recall(d, call, env), call, env)
  }

  /** `commit`: the records are appended, then the queue file is replaced. */
  function Commit(d: Disk, plan: Plan): Disk {
    Disk(plan.queue, d.log + plan.finished)
  }

  /**
   * One call, run to its end (`cut` absent) or interrupted in its commit after `cut` records became readable and
   * before the queue file was replaced. A call interrupted after the replace has simply lost its reply.
   */
  datatype Event = Event(call: Call, env: Env, cut: Option<nat>)

  function Next(d: Disk, ev: Event): Disk
    requires Supplied(ev.call, ev.env)
  {
    var plan := PlanOf(d, ev.call, ev.env);
    if ev.cut.None? then Commit(d, plan)
    else Disk(d.live, d.log + plan.finished[..if ev.cut.value < |plan.finished| then ev.cut.value else |plan.finished|])
  }

  /** A fresh id is one no file mentions; identified subjects are never empty. */
  ghost predicate Possible(d: Disk, ev: Event) {
    && Supplied(ev.call, ev.env)
    && ev.env.entryId !in Ids(d.live.entries)
    && ev.env.entryId !in LogIds(d.log)
    && 1 <= ev.env.ttlLimit <= MAX_LEASE_TTL_SECS
    && (ev.call.EnqueueV2? ==> ev.call.add.dispatch.canonicalId != Some(""))
    && (ev.call.Enqueue? ==> ev.call.dispatch.canonicalId != Some(""))
  }

  /** The disk after a run. */
  ghost function After(d: Disk, run: seq<Event>): Disk
    requires IsRun(d, run)
    decreases |run|
  {
    if run == [] then d else After(Next(d, run[0]), run[1..])
  }

  ghost predicate IsRun(d: Disk, run: seq<Event>)
    decreases |run|
  {
    run == [] || (Possible(d, run[0]) && IsRun(Next(d, run[0]), run[1..]))
  }
}
