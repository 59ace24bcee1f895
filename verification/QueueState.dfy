/** Queue rows, tickets and the in-memory queue (src/dispatch_queue_state.rs). */
module QueueState {
  import opened Wrappers
  import opened Text

  /** Nanoseconds since the epoch. */
  type Instant = int

  const SECOND: int := 1_000_000_000
  const MAX_LEASE_TTL_SECS: int := 7 * 24 * 60 * 60
  /** The latest instant and the longest duration a timestamp library value can hold. */
  const LAST_INSTANT: Instant := 8_210_266_876_799_999_999_999
  const MAX_DELTA_SECS: nat := 9_223_372_036_854_775
  /** Stand for the protocol crate's constants, whose values are not part of this model. */
  const FENCE_SCHEMA: string := "execution-fence"
  const FENCE_VERSION: nat := 1

  datatype Status = Pending | Assigned | Held | Unknown

  /** A time string together with the instant it parses to, if it parses. */
  datatype TimeText = TimeText(raw: string, instant: Option<Instant>)

  /** A dispatch envelope: the identities src/identity.rs reads from it, and its workflow. */
  datatype Dispatch = Dispatch(
    canonicalId: Option<string>, legacyKey: Option<string>, subjectId: Option<string>, taskId: Option<string>,
    workflowRef: string)

  /** A trimmed reservation with its lower-cased repository and its branch collision key. */
  datatype Reservation = Reservation(
    repository: string, folded: string, baseRef: string, headRef: string, collisionKey: string)

  datatype Binding = Binding(key: string, hash: string)

  datatype Entry = Entry(
    id: string, subject: Option<string>, taskId: string, dispatch: Option<Dispatch>, status: Status,
    workflowId: Option<string>, assignedAt: Option<Instant>, heldAt: Option<Instant>,
    runAt: Option<TimeText>, expireAfter: Option<nat>,
    subjectGen: Option<nat>, workflowGen: Option<nat>,
    owner: Option<string>, leaseGen: nat, expiresAt: Option<Instant>,
    repository: Option<Reservation>, key: Option<string>, hash: Option<string>, extraKeys: seq<Binding>)

  /** The content of `queue.json`: rows in queue order and the last generation given to each subject. */
  datatype Queue = Queue(entries: seq<Entry>, counters: map<string, nat>)

  datatype SubjectGeneration = SubjectGeneration(qualifiedId: string, generation: nat)

  datatype LeaseFence = LeaseFence(entryId: string, owner: string, generation: nat, expiresAt: Instant)

  /** A ticket. */
  datatype Fence = Fence(
    schema: string, version: nat, workflowId: string, workflowGen: nat,
    subject: Option<SubjectGeneration>, lease: Option<LeaseFence>, repository: Option<Reservation>)

  predicate Ticketed(e: Entry) {
    e.subjectGen.Some?
  }

  predicate LeaseIsLive(e: Entry, now: Instant) {
    e.expiresAt.Some? && e.expiresAt.value > now
  }

  function NonEmpty(s: Option<string>): Option<string> {
    if s == Some("") then None else s
  }

  function Positive(n: Option<nat>): Option<nat> {
    if n == Some(0) then None else n
  }

  /** The row's ticket, unless a part of its ticket identity is missing. */
  function ExecutionFence(e: Entry): (fence: Option<Fence>) {
    if && NonEmpty(e.subject).Some? && Positive(e.subjectGen).Some?
       && NonEmpty(e.workflowId).Some? && Positive(e.workflowGen).Some?
       && NonEmpty(e.owner).Some? && e.expiresAt.Some? && e.leaseGen != 0
    then
      Some(Fence(FENCE_SCHEMA, FENCE_VERSION, e.workflowId.value, e.workflowGen.value,
                 Some(SubjectGeneration(e.subject.value, e.subjectGen.value)),
                 Some(LeaseFence(e.id, e.owner.value, e.leaseGen, e.expiresAt.value)),
                 e.repository))
    else None
  }

  function ParsedRunAt(e: Entry): Option<Instant> {
    if e.runAt.Some? then e.runAt.value.instant else None
  }

  predicate IsDeferred(e: Entry, now: Instant) {
    ParsedRunAt(e).Some? && now < ParsedRunAt(e).value
  }

  /** `at + secs`, unless no timestamp can hold it. */
  function AddSeconds(at: Instant, secs: nat): Option<Instant> {
    if secs <= MAX_DELTA_SECS && at + secs * SECOND <= LAST_INSTANT then Some(at + secs * SECOND) else None
  }

  function ExpiryDeadline(e: Entry): Option<Instant> {
    if ParsedRunAt(e).Some? && e.expireAfter.Some? then AddSeconds(ParsedRunAt(e).value, e.expireAfter.value) else None
  }

  /** The hash of the first binding of `key`. */
  function ExtraHash(bindings: seq<Binding>, key: string): Option<string> {
    if bindings == [] then None
    else if bindings[0].key == key then Some(bindings[0].hash)
    else ExtraHash(bindings[1..], key)
  }

  /** The content hash `key` is bound to on this row. */
  function BoundHash(e: Entry, key: string): Option<string> {
    if e.key == Some(key) then Some(if e.hash.Some? then e.hash.value else "") else ExtraHash(e.extraKeys, key)
  }

  predicate HoldsKey(e: Entry, key: string) {
    BoundHash(e, key).Some?
  }

  /** The subject an old-style call sees. */
  function SubjectIdRef(e: Entry): string {
    if e.subject.Some? && Trim(e.subject.value) != "" then Trim(e.subject.value)
    else if e.dispatch.Some? && e.dispatch.value.subjectId.Some? then e.dispatch.value.subjectId.value
    else e.taskId
  }

  /** A row with nothing but its defaults. */
  function BlankEntry(id: string): Entry {
    Entry(id, None, "", None, Pending, None, None, None, None, None, None, None, None, 0, None, None, None, None, [])
  }

  function FromDispatch(id: string, dispatch: Dispatch, runAt: Option<TimeText>, expireAfter: Option<nat>): Entry {
    BlankEntry(id).(
      subject := dispatch.legacyKey,
      taskId := if dispatch.taskId.Some? then dispatch.taskId.value else "",
      dispatch := Some(dispatch), runAt := runAt, expireAfter := expireAfter)
  }

  // ---------------------------------------------------------------------
  // Finding rows
  // ---------------------------------------------------------------------

  ghost function Ids(entries: seq<Entry>): set<string> {
    set e | e in entries :: e.id
  }

  ghost predicate UniqueIds(entries: seq<Entry>) {
    forall i, j :: 0 <= i < j < |entries| ==> entries[i].id != entries[j].id
  }

  /** The first row with this id. */
  function Position(entries: seq<Entry>, id: string): (p: Option<nat>)
    ensures p.None? <==> forall i :: 0 <= i < |entries| ==> entries[i].id != id
    ensures p.Some? ==> p.value < |entries| && entries[p.value].id == id
    ensures p.Some? ==> forall i :: 0 <= i < p.value ==> entries[i].id != id
  {
    if entries == [] then None
    else if entries[0].id == id then Some(0)
    else
      var rest := Position(entries[1..], id);
      if rest.Some? then Some(rest.value + 1) else None
  }

  function Removed(entries: seq<Entry>, i: nat): seq<Entry>
    requires i < |entries|
  {
    entries[..i] + entries[i + 1..]
  }
}
