/** The two files themselves: `queue.json` as the value it holds, `queue-history.jsonl` byte by byte. */
module Files {
  import opened Wrappers
  import opened QueueState
  import opened QueueHistory
  import opened Machine
  import opened Invariant
  import opened TornLog
  import opened CrashRefinement

  datatype Pair = Pair(live: Queue, history: seq<Byte>)

  /** What the plugin reads from the files. */
  function Content(codec: Codec<Record>, files: Pair): Disk {
    Disk(files.live, Read(codec, files.history))
  }

  /** One call on the files. `ev.cut` counts the bytes an interrupted commit wrote before it stopped. */
  function Step(codec: Codec<Record>, files: Pair, ev: Event): Pair
    requires Supplied(ev.call, ev.env)
  {
    var plan := PlanOf(Content(codec, files), ev.call, ev.env);
    var payload := Payload(codec, files.history, plan.finished);
    if ev.cut.None? then Pair(plan.queue, files.history + payload)
    else Pair(files.live, files.history + payload[..if ev.cut.value < |payload| then ev.cut.value else |payload|])
  }

  /** The same call with its cut counted in readable records. */
  function InRecords(codec: Codec<Record>, files: Pair, ev: Event): Event
    requires Supplied(ev.call, ev.env)
  {
    var finished := PlanOf(Content(codec, files), ev.call, ev.env).finished;
    var payload := Payload(codec, files.history, finished);
    if ev.cut.None? then ev
    else
      var n := if ev.cut.value < |payload| then ev.cut.value else |payload|;
      ev.(cut := Some(Survivors(codec, files.history, finished, n)))
  }

  /** A commit cut at any byte is a commit cut after some number of records. */
  lemma StepIsNext(codec: Codec<Record>, files: Pair, ev: Event)
    requires Sound(codec) && Supplied(ev.call, ev.env)
    ensures Supplied(InRecords(codec, files, ev).call, InRecords(codec, files, ev).env)
    ensures Content(codec, Step(codec, files, ev)) == Next(Content(codec, files), InRecords(codec, files, ev))
  {
    hide Sound, Read, Payload, Survivors, PlanOf;
    var d := Content(codec, files);
    var finished := PlanOf(d, ev.call, ev.env).finished;
    var payload := Payload(codec, files.history, finished);
    var n := if ev.cut.Some? && ev.cut.value < |payload| then ev.cut.value else |payload|;
    CutAppend(codec, files.history, finished, n);
    assert payload[..|payload|] == payload;
    assert finished[..|finished|] == finished;
  }

  ghost predicate IsFileRun(codec: Codec<Record>, files: Pair, run: seq<Event>)
    decreases |run|
  {
    run == [] || (Possible(Content(codec, files), run[0]) && IsFileRun(codec, Step(codec, files, run[0]), run[1..]))
  }

  ghost function FilesAfter(codec: Codec<Record>, files: Pair, run: seq<Event>): Pair
    requires IsFileRun(codec, files, run)
    decreases |run|
  {
    if run == [] then files else FilesAfter(codec, Step(codec, files, run[0]), run[1..])
  }

  /** What the callers are told. */
  ghost function FileReplies(codec: Codec<Record>, files: Pair, run: seq<Event>): seq<Option<Reply>>
    requires IsFileRun(codec, files, run)
    decreases |run|
  {
    if run == [] then []
    else [if run[0].cut.None? then Some(PlanOf(Content(codec, files), run[0].call, run[0].env).reply) else None]
         + FileReplies(codec, Step(codec, files, run[0]), run[1..])
  }

  /**
   * Crash refinement down to bytes: with every commit possibly stopped after any byte, the replies are those of the
   * row table in which an interrupted call did nothing, and the files stand for that table.
   */
  lemma {:induction false} FilesRefineTable(codec: Codec<Record>, files: Pair, run: seq<Event>)
    requires Sound(codec) && Inv(Content(codec, files)) && IsFileRun(codec, files, run)
    ensures AllSupplied(run)
    ensures FileReplies(codec, files, run) == TableReplies(Abs(Content(codec, files)), run)
    ensures Abs(Content(codec, FilesAfter(codec, files, run))) == TableAfter(Abs(Content(codec, files)), run)
    ensures Inv(Content(codec, FilesAfter(codec, files, run)))
    decreases |run|
  {
    hide Sound, Inv, Step, Content, Next, TableNext, TablePlan, PlanOf, Abs;
    if run != [] {
      var ev := InRecords(codec, files, run[0]);
      var d := Content(codec, files);
      StepIsNext(codec, files, run[0]);
      PlansAgree(d, run[0]);
      EventRefines(d, ev);
      EventKeeps(d, ev);
      CutsAlike(Abs(d), run[0], ev);
      FilesRefineTable(codec, Step(codec, files, run[0]), run[1..]);
      assert run == [run[0]] + run[1..];
    }
  }

  /** The table does not care where a call was cut. */
  lemma CutsAlike(t: Table, a: Event, b: Event)
    requires a.call == b.call && a.env == b.env && a.cut.Some? == b.cut.Some? && Supplied(a.call, a.env)
    ensures TableNext(t, a) == TableNext(t, b)
  {
  }
}
