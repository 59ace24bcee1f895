/** What a key promises in terms of the request itself: remembered keys and canonical texts together. */
module Retries {
  import opened Wrappers
  import opened QueueState
  import opened QueueService
  import opened FencedQueue
  import opened Machine
  import opened Invariant
  import opened Idempotency
  import opened Json
  import opened RequestHash

  /** A digest that gives different texts different values, as SHA-256 is taken to. */
  ghost predicate Injective(digest: string -> string) {
    forall s, t :: digest(s) == digest(t) ==> s == t
  }

  function PlaceOf(repository: Option<Reservation>): Option<Place> {
    if repository.None? then None
    else Some(Place(repository.value.repository, repository.value.baseRef, repository.value.headRef))
  }

  /** The content of an add whose dispatch is `dispatch` on the wire. */
  function ContentOf(add: AddRequest, dispatch: Value): Content {
    var runAt := if add.runAt.Some? then Some(add.runAt.value.raw) else None;
    Content(dispatch, PlaceOf(add.repository), runAt, add.expireAfter)
  }

  /** `add` was sent with this dispatch: its hash is the digest of its content's canonical text. */
  ghost predicate SentWith(add: AddRequest, dispatch: Value, digest: string -> string) {
    Proper(dispatch) && add.hash == digest(Preimage(ContentOf(add, dispatch)))
  }

  lemma HashesAgree(a: AddRequest, b: AddRequest, first: Value, second: Value, digest: string -> string)
    requires Injective(digest) && SentWith(a, first, digest) && SentWith(b, second, digest)
    ensures a.hash == b.hash <==> SameRequest(ContentOf(a, first), ContentOf(b, second))
  {
    hide Preimage, SameRequest;
    PreimagesAgree(ContentOf(a, first), ContentOf(b, second));
  }

  /**
   * Once an add with a key was accepted, a later add with that key is replayed exactly if it makes the same request:
   * the same dispatch up to `requested_at` and the order of object keys, the same repository, `run_at` and
   * `expire_after_secs`. Any other content is refused.
   */
  lemma SameRequestIsReplayed(d: Disk, ev: Event, run: seq<Event>, key: string, again: AddRequest, env: Env,
                              first: Value, second: Value, digest: string -> string)
    requires Inv(d) && Possible(d, ev) && Accepts(d, ev, key) && IsRun(Next(d, ev), run)
    requires Acceptable(again) && TrimmedKey(again) == Some(key)
    requires Injective(digest) && SentWith(ev.call.add, first, digest) && SentWith(again, second, digest)
    ensures var reply := PlanOf(d, ev.call, ev.env).reply;
            var after := After(Next(d, ev), run);
            var plan := PlanOf(after, EnqueueV2(again), env);
            if SameRequest(ContentOf(ev.call.add, first), ContentOf(again, second))
            then && plan.reply == Receipt(false, reply.entryId, reply.subject, false)
                 && plan.queue == Queue(Kept(after.live.entries, env.now), after.live.counters)
                 && plan.finished == SweepFinished(after.live, env.now)
            else plan == Unchanged(after.live, InvalidParams)
  {
    hide Inv, Next, PlanOf, SentWith, SameRequest;
    KeyRemembered(d, ev, run, key, again, env);
    HashesAgree(ev.call.add, again, first, second, digest);
  }
}
