/**
  The Exact publication worker: it collects ACTIVE additions into one bounded
  buffer, appends the buffer when it is full or its window closes, and lets
  nothing pass a transition, a flush fence or the end of the queue unappended.
 */
module ExactPublisher {
  import opened ExactIndex

  const QUEUE_BATCHES: nat := 8
  const BATCH_ENTRIES: nat := 16_384

  /** What the worker receives; `Timeout` is the closing of the collection window. */
  datatype Input = Publish(entries: seq<Entry>) | Flush | Timeout | Shutdown

  datatype Batch = NoBatch | Batch(entries: seq<Entry>, commands: nat)

  /** An append of one batch, or the reply to the fence that was input number `fence`. */
  datatype Output = Appended(entries: seq<Entry>, commands: nat) | Acknowledged(fence: nat)

  // ---- one command at a time ----

  /** The index when each of the first `n` inputs is published on its own. */
  ghost function Singly(inputs: seq<Input>, n: nat): (index: Index)
    requires n <= |inputs|
  {
    if n == 0 then map[]
    else if inputs[n - 1].Publish? then Apply(Singly(inputs, n - 1), inputs[n - 1].entries)
    else Singly(inputs, n - 1)
  }

  /** The index that the emitted appends produce. */
  ghost function Emitted(log: seq<Output>): (index: Index) {
    if log == [] then map[]
    else
      var last := log[|log| - 1];
      if last.Appended? then Apply(Emitted(log[..|log| - 1]), last.entries) else Emitted(log[..|log| - 1])
  }

  lemma EmittedMore(log: seq<Output>, o: Output)
    ensures Emitted(log + [o]) == if o.Appended? then Apply(Emitted(log), o.entries) else Emitted(log)
  {
  }

  // ---- the worker's invariant ----

  function Held(b: Batch): seq<Entry> {
    if b.Batch? then b.entries else []
  }

  /** The collection buffer holds additions only and stays within both bounds. */
  ghost predicate Collecting(b: Batch) {
    b.Batch? ==>
      && AllActive(b.entries) && b.entries != []
      && 1 <= b.commands <= QUEUE_BATCHES
      && |b.entries| <= BATCH_ENTRIES && (b.commands == 1 ==> |b.entries| < BATCH_ENTRIES)
  }

  predicate WithinBounds(o: Output) {
    o.Appended? ==>
      && o.entries != [] && 1 <= o.commands <= QUEUE_BATCHES
      && (o.commands > 1 ==> |o.entries| <= BATCH_ENTRIES)
  }

  /**
    A joined append is sorted and no entry equals its neighbour, so it names every key
    once exactly when its keys identify its entries.
   */
  ghost predicate InOrder(o: Output) {
    o.Appended? && o.commands > 1 ==>
      && Ascending(o.entries) && NeighboursDiffer(o.entries)
      && (Strict(o.entries) <==> KeysIdentify(o.entries))
  }

  /** Every append stays within the bounds and in order. */
  ghost predicate Tidy(log: seq<Output>) {
    forall o :: o in log ==> WithinBounds(o) && InOrder(o)
  }

  lemma TidyMore(log: seq<Output>, o: Output)
    requires Tidy(log) && WithinBounds(o) && InOrder(o)
    ensures Tidy(log + [o])
  {
    hide WithinBounds, InOrder;
  }

  /** A fence is answered only when everything received before it has been appended. */
  ghost predicate FenceHonoured(inputs: seq<Input>, n: nat, log: seq<Output>, p: nat)
    requires n <= |inputs| && p < |log|
  {
    log[p].Acknowledged? ==>
      log[p].fence < n && inputs[log[p].fence].Flush? && Emitted(log[..p]) == Singly(inputs, log[p].fence)
  }

  ghost predicate FencesAnswered(inputs: seq<Input>, n: nat, log: seq<Output>)
    requires n <= |inputs|
  {
    && (forall p :: 0 <= p < |log| ==> FenceHonoured(inputs, n, log, p))
    && (forall m :: 0 <= m < n && inputs[m].Flush? ==> Acknowledged(m) in log)
    && (forall p, q :: 0 <= p < q < |log| && log[p].Acknowledged? && log[q].Acknowledged? ==>
          log[p].fence < log[q].fence)
  }

  ghost predicate Faithful(inputs: seq<Input>, n: nat, log: seq<Output>, b: Batch)
    requires n <= |inputs|
  {
    && Collecting(b)
    && Tidy(log)
    && FencesAnswered(inputs, n, log)
    && Apply(Emitted(log), Held(b)) == Singly(inputs, n)
  }

  // ---- preservation ----

  /** The append made for a collected batch. */
  function AppendOf(b: Batch): (o: Output)
    requires b.Batch?
  {
    Appended(if b.commands > 1 then Canonical(b.entries) else b.entries, b.commands)
  }

  lemma AppendIsBatch(index: Index, b: Batch)
    requires b.Batch? && (b.commands > 1 ==> AllActive(b.entries))
    ensures Apply(index, AppendOf(b).entries) == Apply(index, b.entries)
    ensures b.entries != [] ==> AppendOf(b).entries != []
    ensures |AppendOf(b).entries| <= |b.entries|
    ensures InOrder(AppendOf(b))
    ensures forall e :: e in AppendOf(b).entries <==> e in b.entries
  {
    if b.commands > 1 {
      CanonicalSameUpdate(index, b.entries);
      StrictIffKeysIdentify(Canonical(b.entries));
    }
  }

  /** An append does not disturb the fences answered before it. */
  lemma AppendKeepsFences(inputs: seq<Input>, n: nat, log: seq<Output>, o: Output)
    requires n <= |inputs| && FencesAnswered(inputs, n, log) && o.Appended?
    ensures FencesAnswered(inputs, n, log + [o])
  {
    var more := log + [o];
    forall p | 0 <= p < |more|
      ensures FenceHonoured(inputs, n, more, p)
    {
      if p < |log| {
        assert FenceHonoured(inputs, n, log, p) && more[p] == log[p] && more[..p] == log[..p];
      }
    }
    forall m | 0 <= m < n && inputs[m].Flush?
      ensures Acknowledged(m) in more
    {
      assert Acknowledged(m) in log;
    }
  }

  /** Emptying the buffer appends exactly what it held. */
  lemma FlushKeeps(inputs: seq<Input>, n: nat, log: seq<Output>, b: Batch)
    requires n <= |inputs| && Faithful(inputs, n, log, b) && b.Batch?
    ensures Faithful(inputs, n, log + [AppendOf(b)], NoBatch)
  {
    hide FencesAnswered, Canonical, Tidy;
    AppendIsBatch(Emitted(log), b);
    TidyMore(log, AppendOf(b));
    EmittedMore(log, AppendOf(b));
    AppendKeepsFences(inputs, n, log, AppendOf(b));
  }

  /** A command published on its own, after the buffer was emptied. */
  lemma AloneKeeps(inputs: seq<Input>, n: nat, log: seq<Output>)
    requires n < |inputs| && Faithful(inputs, n, log, NoBatch) && inputs[n].Publish? && inputs[n].entries != []
    ensures Faithful(inputs, n + 1, log + [Appended(inputs[n].entries, 1)], NoBatch)
  {
    hide FencesAnswered, Tidy;
    var o := Appended(inputs[n].entries, 1);
    TidyMore(log, o);
    EmittedMore(log, o);
    NextInput(inputs, n, log);
    AppendKeepsFences(inputs, n + 1, log, o);
  }

  lemma NextInput(inputs: seq<Input>, n: nat, log: seq<Output>)
    requires n < |inputs| && FencesAnswered(inputs, n, log) && !inputs[n].Flush?
    ensures FencesAnswered(inputs, n + 1, log)
  {
    var next := n + 1;
    forall p | 0 <= p < |log|
      ensures FenceHonoured(inputs, next, log, p)
    {
      assert FenceHonoured(inputs, n, log, p);
    }
  }

  /** One more command of additions joins the buffer. */
  lemma JoinKeeps(inputs: seq<Input>, n: nat, log: seq<Output>, b: Batch, joined: Batch)
    requires n < |inputs| && Faithful(inputs, n, log, b) && inputs[n].Publish?
    requires joined.Batch? && joined.entries == Held(b) + inputs[n].entries && Collecting(joined)
    ensures Faithful(inputs, n + 1, log, joined)
  {
    hide FencesAnswered, Tidy;
    ApplyJoined(Emitted(log), Held(b), inputs[n].entries);
    NextInput(inputs, n, log);
  }

  lemma QuietKeeps(inputs: seq<Input>, n: nat, log: seq<Output>)
    requires n < |inputs| && Faithful(inputs, n, log, NoBatch) && (inputs[n].Timeout? || inputs[n].Shutdown?)
    ensures Faithful(inputs, n + 1, log, NoBatch)
  {
    hide FencesAnswered, Tidy;
    NextInput(inputs, n, log);
  }

  lemma FenceKeeps(inputs: seq<Input>, n: nat, log: seq<Output>)
    requires n < |inputs| && Faithful(inputs, n, log, NoBatch) && inputs[n].Flush?
    ensures Faithful(inputs, n + 1, log + [Acknowledged(n)], NoBatch)
  {
    hide FencesAnswered, Tidy;
    TidyMore(log, Acknowledged(n));
    EmittedMore(log, Acknowledged(n));
    assert Emitted(log) == Singly(inputs, n);
    AnswerFence(inputs, n, log);
  }

  lemma AnswerFence(inputs: seq<Input>, n: nat, log: seq<Output>)
    requires n < |inputs| && inputs[n].Flush? && FencesAnswered(inputs, n, log) && Emitted(log) == Singly(inputs, n)
    ensures FencesAnswered(inputs, n + 1, log + [Acknowledged(n)])
  {
    hide Emitted, Singly;
    var next, more := n + 1, log + [Acknowledged(n)];
    forall p | 0 <= p < |more|
      ensures FenceHonoured(inputs, next, more, p)
    {
      if p < |log| {
        assert FenceHonoured(inputs, n, log, p) && more[p] == log[p] && more[..p] == log[..p];
      } else {
        assert more[..p] == log;
      }
    }
    forall m | 0 <= m < next && inputs[m].Flush?
      ensures Acknowledged(m) in more
    {
      if m < n { assert Acknowledged(m) in log; } else { assert more[|log|] == Acknowledged(n); }
    }
    forall p, q | 0 <= p < q < |more| && more[p].Acknowledged? && more[q].Acknowledged?
      ensures more[p].fence < more[q].fence
    {
      assert FenceHonoured(inputs, n, log, p) && more[p] == log[p];
      if q < |log| { assert more[q] == log[q]; }
    }
  }

  // ---- the worker ----

  class ExactPublicationWorker {
    var buffer: Batch
    var log: seq<Output>

    constructor ()
      ensures buffer == NoBatch && log == []
    {
      buffer, log := NoBatch, [];
    }

    /** `flush_collected`, with `publish_collected` for the batch it finds. */
    method FlushCollected(ghost inputs: seq<Input>, ghost n: nat)
      requires n <= |inputs| && Faithful(inputs, n, log, buffer)
      modifies this
      ensures buffer == NoBatch && Faithful(inputs, n, log, NoBatch)
      ensures log == old(log) + if old(buffer).Batch? then [AppendOf(old(buffer))] else []
    {
      hide Faithful;
      if buffer.Batch? {
        FlushKeeps(inputs, n, log, buffer);
        log := log + [AppendOf(buffer)];
        buffer := NoBatch;
      }
    }

    /**
      The ACTIVE branch. A command that fits joins the buffer and nothing is appended; one
      that does not makes the buffer's append first, and then waits in a new buffer, or is
      published alone when it fills one by itself.
     */
    method Collect(ghost inputs: seq<Input>, ghost n: nat, entries: seq<Entry>)
      requires n < |inputs| && inputs[n] == Publish(entries) && entries != [] && AllActive(entries)
      requires Faithful(inputs, n, log, buffer)
      modifies this
      ensures Faithful(inputs, n + 1, log, buffer)
      ensures var joins := && old(buffer).Batch? && old(buffer).commands < 8
                           && |old(buffer).entries| + |entries| <= 16_384;
              var flushed := old(log) + if old(buffer).Batch? && !joins then [AppendOf(old(buffer))] else [];
              if joins then
                log == flushed && buffer == Batch(old(buffer).entries + entries, old(buffer).commands + 1)
              else if |entries| < 16_384 then log == flushed && buffer == Batch(entries, 1)
              else log == flushed + [Appended(entries, 1)] && buffer == NoBatch
    {
      var exceeds := buffer.Batch?
                     && (|buffer.entries| + |entries| > BATCH_ENTRIES || buffer.commands >= QUEUE_BATCHES);
      if exceeds {
        FlushCollected(inputs, n);
      }
      if buffer.Batch? {
        var joined := Batch(buffer.entries + entries, buffer.commands + 1);
        JoinKeeps(inputs, n, log, buffer, joined);
        buffer := joined;
      } else if |entries| >= BATCH_ENTRIES {
        AloneKeeps(inputs, n, log);
        log := log + [AppendOf(Batch(entries, 1))];
      } else {
        assert [] + entries == entries;
        JoinKeeps(inputs, n, log, buffer, Batch(entries, 1));
        buffer := Batch(entries, 1);
      }
    }

    /**
      `run`. Callers never publish an empty command. The end of `inputs` is the
      disconnection of the queue, and appends succeed.
     */
    method Run(inputs: seq<Input>) returns (consumed: nat)
      requires forall i :: 0 <= i < |inputs| && inputs[i].Publish? ==> inputs[i].entries != []
      requires buffer == NoBatch && log == []
      modifies this
      ensures consumed <= |inputs|
      ensures consumed < |inputs| ==> consumed > 0 && inputs[consumed - 1].Shutdown?
      ensures forall i :: 0 <= i < consumed - 1 ==> !inputs[i].Shutdown?
      ensures buffer == NoBatch
      ensures Emitted(log) == Singly(inputs, consumed)
      ensures FencesAnswered(inputs, consumed, log)
      ensures Tidy(log)
    {
      consumed := 0;
      while consumed < |inputs|
        invariant consumed <= |inputs| && Faithful(inputs, consumed, log, buffer)
        invariant forall i :: 0 <= i < consumed ==> !inputs[i].Shutdown?
      {
        consumed := HandleOne(inputs, consumed);
        if inputs[consumed - 1].Shutdown? {
          return;
        }
      }
      FlushCollected(inputs, consumed);
    }

    method HandleOne(inputs: seq<Input>, n: nat) returns (next: nat)
      requires n < |inputs| && Faithful(inputs, n, log, buffer)
      requires inputs[n].Publish? ==> inputs[n].entries != []
      modifies this
      ensures next == n + 1 && Faithful(inputs, next, log, buffer)
      ensures !inputs[n].Publish? ==> buffer == NoBatch
    {
      hide Faithful;
      next := n + 1;
      match inputs[n]
      case Publish(entries) =>
        if AllActive(entries) {
          Collect(inputs, n, entries);
        } else {
          FlushCollected(inputs, n);
          AloneKeeps(inputs, n, log);
          log := log + [AppendOf(Batch(entries, 1))];
        }
      case Flush =>
        FlushCollected(inputs, n);
        FenceKeeps(inputs, n, log);
        log := log + [Acknowledged(n)];
      case Timeout =>
        FlushCollected(inputs, n);
        QuietKeeps(inputs, n, log);
      case Shutdown =>
        FlushCollected(inputs, n);
        QuietKeeps(inputs, n, log);
    }
  }
}
