/** What the ticketed calls of src/fenced_queue.rs do to a loaded queue. */
module FencedQueue {
  import opened Wrappers
  import opened Text
  import opened QueueState
  import opened QueueHistory
  import opened QueueService

  const MAX_LEASE_BATCH: nat := 5
  const MAX_IDEMPOTENCY_KEY_CHARS: nat := 256

  // ---------------------------------------------------------------------
  // Requests and replies
  // ---------------------------------------------------------------------

  /** A ticketed add. `hash` is the content hash src/request_hash.rs computes for it. */
  datatype AddRequest = AddRequest(
    dispatch: Dispatch, key: Option<string>, repository: Option<Reservation>,
    runAt: Option<TimeText>, expireAfter: Option<nat>, hash: string)

  datatype LeaseRequest = LeaseRequest(max: nat, owner: string, workflowIds: seq<string>, exclude: seq<Fence>)

  /** One of the four ticket calls. */
  datatype TicketOp =
    | Renew(ttl: Option<nat>)
    | Recover(newOwner: string, ttl: Option<nat>)
    | Complete(status: string)
    | PutBack

  datatype MutationOutcome = Applied | AlreadyApplied | NotFound | NotAssigned | StaleFence | LeaseStillLive

  datatype BlockReason = MissingExecutionIdentity | SubjectGenerationActive | RepositoryRefCollision

  datatype Block = Block(entryId: string, reason: BlockReason, conflict: Option<Fence>)

  datatype Grant = Grant(entry: Entry, fence: Fence)

  // ---------------------------------------------------------------------
  // Tickets
  // ---------------------------------------------------------------------

  predicate SameRepository(left: Option<Reservation>, right: Option<Reservation>) {
    if left.Some? && right.Some? then
      && left.value.folded == right.value.folded
      && left.value.baseRef == right.value.baseRef
      && left.value.headRef == right.value.headRef
    else left.None? && right.None?
  }

  /** Is `fence` the row's current ticket? Everything but the expiry is compared. */
  predicate ExactFenceMatches(e: Entry, fence: Fence) {
    && fence.subject.Some? && fence.lease.Some?
    && fence.schema == FENCE_SCHEMA
    && fence.version == FENCE_VERSION
    && e.workflowId == Some(fence.workflowId)
    && e.workflowGen == Some(fence.workflowGen)
    && e.subject == Some(fence.subject.value.qualifiedId)
    && e.subjectGen == Some(fence.subject.value.generation)
    && e.id == fence.lease.value.entryId
    && e.owner == Some(fence.lease.value.owner)
    && e.leaseGen == fence.lease.value.generation
    && SameRepository(fence.repository, e.repository)
  }

  /** A caller's ttl, capped at the configured ticket length. */
  function RequestedTtl(ttl: Option<nat>, limit: int): int {
    if ttl.Some? && ttl.value < limit then ttl.value else limit
  }

  // ---------------------------------------------------------------------
  // Subject generations
  // ---------------------------------------------------------------------

  /** The highest generation a live row of `subject` holds, or 0. */
  function LiveMax(entries: seq<Entry>, subject: string): (max: nat)
    ensures forall e :: e in entries && e.subject == Some(subject) && e.subjectGen.Some? ==> e.subjectGen.value <= max
    ensures max == 0 || exists e :: e in entries && e.subject == Some(subject) && e.subjectGen == Some(max)
  {
    if entries == [] then 0
    else
      var e := entries[0];
      var rest := LiveMax(entries[1..], subject);
      assert entries == [e] + entries[1..];
      if e.subject == Some(subject) && e.subjectGen.Some? && e.subjectGen.value > rest then e.subjectGen.value else rest
  }

  function NextGeneration(q: Queue, subject: string): nat {
    var recorded := if subject in q.counters then q.counters[subject] else 0;
    var live := LiveMax(q.entries, subject);
    (if recorded < live then live else recorded) + 1
  }

  function Counted(q: Queue, subject: string): Queue {
    q.(counters := q.counters[subject := NextGeneration(q, subject)])
  }

  /** The queue after a row got its ticket identity, with that identity. */
  datatype Identified = Identified(queue: Queue, subject: SubjectGeneration)

  function EnsureIdentity(q: Queue, i: nat): (r: Option<Identified>)
    requires i < |q.entries|
    ensures r.Some? ==> |r.value.queue.entries| == |q.entries|
  {
    var e := q.entries[i];
    if e.subjectGen.Some? && e.subject.Some? then
      Some(Identified(q, SubjectGeneration(e.subject.value, e.subjectGen.value)))
    else if e.dispatch.Some? && e.dispatch.value.canonicalId.Some? then
      var s := e.dispatch.value.canonicalId.value;
      var g := NextGeneration(q, s);
      var named := e.(subject := Some(s), subjectGen := Some(g));
      Some(Identified(Counted(q, s).(entries := q.entries[i := named]), SubjectGeneration(s, g)))
    else None
  }

  // ---------------------------------------------------------------------
  // Ticketed add
  // ---------------------------------------------------------------------

  predicate IsTicketedFor(e: Entry, subject: string) {
    e.status != Unknown && Ticketed(e) && e.subject == Some(subject)
  }

  predicate IsWaitingFor(e: Entry, subject: string) {
    && (e.status == Pending || e.status == Held)
    && !Ticketed(e)
    && e.dispatch.Some? && e.dispatch.value.canonicalId == Some(subject)
  }

  /** The last of the subject's ticketed rows with the highest generation. */
  function HighestTicketed(entries: seq<Entry>, subject: string): (p: Option<nat>)
    ensures p.None? <==> forall i :: 0 <= i < |entries| ==> !IsTicketedFor(entries[i], subject)
    ensures p.Some? ==> p.value < |entries| && IsTicketedFor(entries[p.value], subject)
    ensures p.Some? ==> forall i :: 0 <= i < |entries| && IsTicketedFor(entries[i], subject)
                                    ==> entries[i].subjectGen.value <= entries[p.value].subjectGen.value
  {
    if entries == [] then None
    else
      var n := |entries| - 1;
      var best := HighestTicketed(entries[..n], subject);
      if && IsTicketedFor(entries[n], subject)
         && (best.None? || entries[best.value].subjectGen.value <= entries[n].subjectGen.value)
      then Some(n) else best
  }

  function FirstWaiting(entries: seq<Entry>, subject: string): (p: Option<nat>)
    ensures p.None? <==> forall i :: 0 <= i < |entries| ==> !IsWaitingFor(entries[i], subject)
    ensures p.Some? ==> p.value < |entries| && IsWaitingFor(entries[p.value], subject)
    ensures p.Some? ==> forall i :: 0 <= i < p.value ==> !IsWaitingFor(entries[i], subject)
  {
    if entries == [] then None
    else if IsWaitingFor(entries[0], subject) then Some(0)
    else
      var rest := FirstWaiting(entries[1..], subject);
      if rest.Some? then Some(rest.value + 1) else None
  }

  /** The live row that stops a new ticketed add. */
  function LiveEntryForSubject(entries: seq<Entry>, subject: string): Option<nat> {
    var ticketed := HighestTicketed(entries, subject);
    if ticketed.Some? then ticketed else FirstWaiting(entries, subject)
  }

  /** Trimmed, as the add stores it. */
  function TrimmedKey(add: AddRequest): Option<string> {
    if add.key.Some? then Some(Trim(add.key.value)) else None
  }

  /** The checks an add passes before the queue file is opened. */
  predicate Acceptable(add: AddRequest) {
    && add.dispatch.canonicalId.Some?
    && (add.runAt.Some? ==> add.runAt.value.instant.Some?)
    && (add.expireAfter.Some? ==>
          && add.expireAfter.value <= MAX_DELTA_SECS
          && (add.runAt.Some? ==> AddSeconds(add.runAt.value.instant.value, add.expireAfter.value).Some?))
    && (TrimmedKey(add).Some? ==> |TrimmedKey(add).value| <= MAX_IDEMPOTENCY_KEY_CHARS)
  }

  function Bound(e: Entry, key: Option<string>, hash: string): Entry {
    if key.Some? then e.(extraKeys := e.extraKeys + [Binding(key.value, hash)]) else e
  }

  function NewEntry(id: string, add: AddRequest, generation: nat): Entry
    requires Acceptable(add)
  {
    BlankEntry(id).(
      subject := add.dispatch.canonicalId,
      taskId := if add.dispatch.taskId.Some? then add.dispatch.taskId.value else "",
      dispatch := Some(add.dispatch), runAt := add.runAt, expireAfter := add.expireAfter,
      subjectGen := Some(generation), repository := add.repository,
      key := TrimmedKey(add), hash := Some(add.hash))
  }

  /** The first row that holds `key`. */
  function KeyHolder(entries: seq<Entry>, key: string): (p: Option<nat>)
    ensures p.None? <==> forall i :: 0 <= i < |entries| ==> !HoldsKey(entries[i], key)
    ensures p.Some? ==> p.value < |entries| && HoldsKey(entries[p.value], key)
  {
    if entries == [] then None
    else if HoldsKey(entries[0], key) then Some(0)
    else
      var rest := KeyHolder(entries[1..], key);
      if rest.Some? then Some(rest.value + 1) else None
  }

  /** The live or just-swept row that holds `key`, live rows first. */
  function CurrentHolder(live: seq<Entry>, swept: seq<Record>, key: string): Option<Entry> {
    var p := KeyHolder(live, key);
    if p.Some? then Some(live[p.value]) else SweptHolder(swept, key)
  }

  function SweptHolder(swept: seq<Record>, key: string): (e: Option<Entry>)
    ensures e.None? <==> forall r :: r in swept ==> !HoldsKey(r.entry, key)
    ensures e.Some? ==> HoldsKey(e.value, key) && exists r :: r in swept && r.entry == e.value
  {
    if swept == [] then None
    else if HoldsKey(swept[0].entry, key) then Some(swept[0].entry)
    else SweptHolder(swept[1..], key)
  }

  // ---------------------------------------------------------------------
  // Ticketed hand-out
  // ---------------------------------------------------------------------

  /** The first `cap` due waiting rows from position `i` on. */
  function Candidates(entries: seq<Entry>, i: nat, cap: nat, now: Instant): (c: seq<nat>)
    decreases |entries| - i
    ensures |c| <= cap
    ensures forall k :: 0 <= k < |c| ==> i <= c[k] < |entries| && Due(entries[c[k]], now)
    ensures forall k, l :: 0 <= k < l < |c| ==> c[k] < c[l]
    ensures forall j :: i <= j < |entries| && Due(entries[j], now)
                        ==> j in c || (|c| == cap && forall k :: 0 <= k < |c| ==> c[k] < j)
  {
    if cap == 0 || |entries| <= i then []
    else if Due(entries[i], now) then [i] + Candidates(entries, i + 1, cap - 1, now)
    else Candidates(entries, i + 1, cap, now)
  }

  function CandidateCap(max: nat): nat {
    if max * 10 < 50 then 50 else max * 10
  }

  predicate HoldsBranch(e: Entry, key: string) {
    e.status == Assigned && e.repository.Some? && e.repository.value.collisionKey == key
  }

  /** Rust's order on optional times: an absent one comes first. */
  predicate Earlier(a: Option<Instant>, b: Option<Instant>) {
    b.Some? && (a.None? || a.value < b.value)
  }

  /** The running row on the branch, earliest assigned first. */
  function RunningOnBranch(entries: seq<Entry>, key: string): (p: Option<nat>)
    ensures p.None? <==> forall i :: 0 <= i < |entries| ==> !HoldsBranch(entries[i], key)
    ensures p.Some? ==> p.value < |entries| && HoldsBranch(entries[p.value], key)
    ensures p.Some? ==> forall i :: 0 <= i < |entries| && HoldsBranch(entries[i], key) ==>
              var first, other := entries[p.value].assignedAt, entries[i].assignedAt;
              first.None? || (other.Some? && first.value <= other.value)
  {
    if entries == [] then None
    else
      var n := |entries| - 1;
      var best := RunningOnBranch(entries[..n], key);
      if && HoldsBranch(entries[n], key)
         && (best.None? || Earlier(entries[n].assignedAt, entries[best.value].assignedAt))
      then Some(n) else best
  }

  /** `f` is the first of `fences` for `subject`. */
  ghost predicate FirstOnSubject(fences: seq<Fence>, f: Fence, subject: SubjectGeneration) {
    && f.subject == Some(subject)
    && exists k :: 0 <= k < |fences| && fences[k] == f && forall j :: 0 <= j < k ==> fences[j].subject != Some(subject)
  }

  function FenceOnSubject(fences: seq<Fence>, subject: SubjectGeneration): (f: Option<Fence>)
    ensures f.None? <==> forall x :: x in fences ==> x.subject != Some(subject)
    ensures f.Some? ==> FirstOnSubject(fences, f.value, subject)
  {
    if fences == [] then None
    else if fences[0].subject == Some(subject) then Some(fences[0])
    else
      var rest := FenceOnSubject(fences[1..], subject);
      assert fences == [fences[0]] + fences[1..];
      assert forall k :: 0 <= k < |fences[1..]| ==> fences[k + 1] == fences[1..][k];
      rest
  }

  predicate FenceHoldsBranch(f: Fence, key: string) {
    f.repository.Some? && f.repository.value.collisionKey == key
  }

  /** `f` is the first of `fences` that reserves the branch. */
  ghost predicate FirstOnBranch(fences: seq<Fence>, f: Fence, key: string) {
    && f.repository.Some? && f.repository.value.collisionKey == key
    && exists k :: 0 <= k < |fences| && fences[k] == f
                   && forall j :: 0 <= j < k && fences[j].repository.Some? ==>
                        fences[j].repository.value.collisionKey != key
  }

  function FenceOnBranch(fences: seq<Fence>, key: string): (f: Option<Fence>)
    ensures f.None? <==> forall x :: x in fences && x.repository.Some? ==> x.repository.value.collisionKey != key
    ensures f.Some? ==> FirstOnBranch(fences, f.value, key)
  {
    if fences == [] then None
    else if FenceHoldsBranch(fences[0], key) then Some(fences[0])
    else
      var rest := FenceOnBranch(fences[1..], key);
      assert fences == [fences[0]] + fences[1..];
      assert forall k :: 0 <= k < |fences[1..]| ==> fences[k + 1] == fences[1..][k];
      rest
  }

  /** What keeps row `i` from being handed out, once it is identified as `subject`. */
  function Conflict(entries: seq<Entry>, i: nat, subject: SubjectGeneration, exclude: seq<Fence>): Option<Block>
    requires i < |entries|
  {
    var e := entries[i];
    var active := FenceOnSubject(exclude, subject);
    if active.Some? then Some(Block(e.id, SubjectGenerationActive, active))
    else if e.repository.None? then None
    else
      var key := e.repository.value.collisionKey;
      var excluded := FenceOnBranch(exclude, key);
      if excluded.Some? then Some(Block(e.id, RepositoryRefCollision, excluded))
      else
        var running := RunningOnBranch(entries, key);
        if running.Some? then Some(Block(e.id, RepositoryRefCollision, ExecutionFence(entries[running.value])))
        else None
  }

  function HandedOut(e: Entry, workflowId: string, owner: string, now: Instant, expires: Instant): Entry {
    e.(status := Assigned, workflowId := Some(workflowId),
       workflowGen := Some(if e.workflowGen.Some? then e.workflowGen.value else 1),
       owner := Some(owner), leaseGen := e.leaseGen + 1, expiresAt := Some(expires),
       assignedAt := Some(now), heldAt := None)
  }

  /** The state of the hand-out loop. `used` counts the fresh workflow ids taken so far. */
  datatype Scan = Scan(
    queue: Queue, used: nat, leased: seq<Grant>, blocked: seq<Block>, changed: bool, outOfIds: bool)

  function HandOut(s: Scan, i: nat, req: LeaseRequest, now: Instant, expires: Instant): (t: Scan)
    requires i < |s.queue.entries|
    ensures |t.queue.entries| == |s.queue.entries|
  {
    var e := s.queue.entries[i];
    var takesFresh := NonEmpty(e.workflowId).None?;
    if takesFresh && |req.workflowIds| <= s.used then s.(outOfIds := true)
    else
      var workflowId := if takesFresh then req.workflowIds[s.used] else e.workflowId.value;
      var given := HandedOut(e, workflowId, Trim(req.owner), now, expires);
      var fence := ExecutionFence(given);
      if fence.None? then s.(blocked := s.blocked + [Block(e.id, MissingExecutionIdentity, None)])
      else
        s.(queue := s.queue.(entries := s.queue.entries[i := given]),
           used := if takesFresh then s.used + 1 else s.used,
           leased := s.leased + [Grant(given, fence.value)], changed := true)
  }

  /** One turn of the hand-out loop. */
  function Visit(s: Scan, i: nat, req: LeaseRequest, now: Instant, expires: Instant): (t: Scan)
    requires i < |s.queue.entries|
    ensures |t.queue.entries| == |s.queue.entries|
  {
    var e := s.queue.entries[i];
    var identity := if e.dispatch.Some? then EnsureIdentity(s.queue, i) else None;
    if identity.None? then s.(blocked := s.blocked + [Block(e.id, MissingExecutionIdentity, None)])
    else
      var named := s.(queue := identity.value.queue, changed := s.changed || !Ticketed(e));
      var conflict := Conflict(named.queue.entries, i, identity.value.subject, req.exclude);
      if conflict.Some? then named.(blocked := named.blocked + [conflict.value])
      else HandOut(named, i, req, now, expires)
  }

  /** The scan after `n` turns; a turn is skipped once the batch is full or ids ran out. */
  function ScanAfter(start: Scan, candidates: seq<nat>, n: nat, req: LeaseRequest, now: Instant, expires: Instant)
    : (t: Scan)
    requires n <= |candidates|
    requires forall k :: 0 <= k < |candidates| ==> candidates[k] < |start.queue.entries|
    ensures |t.queue.entries| == |start.queue.entries|
  {
    if n == 0 then start
    else
      var before := ScanAfter(start, candidates, n - 1, req, now, expires);
      if req.max <= |before.leased| || before.outOfIds then before
      else Visit(before, candidates[n - 1], req, now, expires)
  }

  function ScanStart(q: Queue, finished: seq<Record>): Scan {
    Scan(q, 0, [], [], finished != [], false)
  }

  /** The whole hand-out scan over a swept queue. */
  function FullScan(q: Queue, finished: seq<Record>, req: LeaseRequest, now: Instant, expires: Instant): Scan {
    var candidates := Candidates(q.entries, 0, CandidateCap(req.max), now);
    ScanAfter(ScanStart(q, finished), candidates, |candidates|, req, now, expires)
  }

  // ---------------------------------------------------------------------
  // Takeover and renewal
  // ---------------------------------------------------------------------

  function TakenOver(e: Entry, newOwner: string, expires: Instant): Entry {
    e.(owner := Some(newOwner), leaseGen := e.leaseGen + 1, expiresAt := Some(expires))
  }

  function Renewed(e: Entry, expires: Instant): Entry {
    e.(expiresAt := if e.expiresAt.Some? && e.expiresAt.value >= expires then e.expiresAt else Some(expires))
  }

  function PutBackTicketed(e: Entry): Entry {
    e.(status := Pending, assignedAt := None)
  }
}
