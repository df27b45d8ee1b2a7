/**
  The event-thread clone queue of the Samba module: at most 64 queued jobs, at
  most 8 of them active, and a job starts only when no earlier queued job
  conflicts with it. Each job also holds one number of its target handle's fence.
 */
module CloneScheduler {
  import Basics
  import opened CloneContract
  import Fences = CompletionFence

  const ASYNC_CLONES: nat := 8
  const PENDING_CLONES: nat := 64

  type Handle = nat

  /** One queued job; `id` is its arrival number. */
  datatype Job = Job(id: nat, handle: Handle, sequence: nat, request: Request, active: bool)

  datatype Queue = Queue(
    jobs: seq<Job>,
    pending: nat,
    active: nat,
    fences: map<Handle, Fences.Fence>,
    arrivals: nat)

  const EMPTY: Queue := Queue([], 0, 0, map[], 0)

  // ---- the three queue updates ----

  predicate Blocked(jobs: seq<Job>, k: nat)
    requires k < |jobs|
  {
    exists i :: 0 <= i < k && Conflict(jobs[i].request, jobs[k].request)
  }

  function FenceOf(q: Queue, h: Handle): (f: Fences.Fence) {
    if h in q.fences then q.fences[h] else Fences.FRESH
  }

  predicate CanEnqueue(q: Queue, h: Handle) {
    q.pending < PENDING_CLONES && Fences.CanAccept(FenceOf(q, h))
  }

  function Enqueue(q: Queue, h: Handle, r: Request): (after: Queue)
    requires CanEnqueue(q, h)
  {
    var fence := Fences.Accept(FenceOf(q, h));
    Queue(q.jobs + [Job(q.arrivals, h, fence.accepted, r, false)],
          q.pending + 1, q.active, q.fences[h := fence], q.arrivals + 1)
  }

  predicate CanActivate(q: Queue, k: nat) {
    && k < |q.jobs|
    && q.active < ASYNC_CLONES
    && !q.jobs[k].active
    && !Blocked(q.jobs, k)
  }

  function Activate(q: Queue, k: nat): (after: Queue)
    requires CanActivate(q, k)
  {
    q.(jobs := q.jobs[k := q.jobs[k].(active := true)], active := q.active + 1)
  }

  /** A job leaves the queue only once active, and its assertion on the fence must hold. */
  predicate CanFinish(q: Queue, k: nat) {
    && k < |q.jobs| && q.jobs[k].active
    && q.pending > 0 && q.active > 0
    && q.jobs[k].handle in q.fences
    && Fences.CanComplete(q.fences[q.jobs[k].handle], q.jobs[k].sequence)
  }

  function Finish(q: Queue, k: nat): (after: Queue)
    requires CanFinish(q, k)
  {
    var job := q.jobs[k];
    Queue(Basics.Without(q.jobs, k), q.pending - 1, q.active - 1,
          q.fences[job.handle := Fences.Complete(q.fences[job.handle], job.sequence)], q.arrivals)
  }

  // ---- what every update keeps ----

  function CountActive(jobs: seq<Job>): (n: nat)
    ensures n <= |jobs|
  {
    if jobs == [] then 0
    else CountActive(jobs[..|jobs| - 1]) + if jobs[|jobs| - 1].active then 1 else 0
  }

  /** The fence numbers held by queued jobs that target handle `h`. */
  ghost function Held(jobs: seq<Job>, h: Handle): (numbers: set<nat>) {
    set i | 0 <= i < |jobs| && jobs[i].handle == h :: jobs[i].sequence
  }

  ghost predicate Bounded(q: Queue) {
    && q.pending == |q.jobs| <= PENDING_CLONES
    && q.active == CountActive(q.jobs) <= ASYNC_CLONES
  }

  ghost predicate InArrivalOrder(jobs: seq<Job>) {
    forall i, j :: 0 <= i < j < |jobs| ==> jobs[i].id < jobs[j].id
  }

  /** No active job has an earlier queued job it conflicts with. */
  ghost predicate NoOvertaking(jobs: seq<Job>) {
    forall i, j :: 0 <= i < j < |jobs| && jobs[j].active ==> !Conflict(jobs[i].request, jobs[j].request)
  }

  ghost predicate NumbersDistinct(jobs: seq<Job>) {
    forall i, j :: 0 <= i < j < |jobs| && jobs[i].handle == jobs[j].handle ==>
                     jobs[i].sequence != jobs[j].sequence
  }

  /** What a fence has outstanding is exactly what the queue holds for its handle. */
  ghost predicate FencesTrackJobs(q: Queue) {
    && (forall k :: 0 <= k < |q.jobs| ==> q.jobs[k].handle in q.fences)
    && (forall h :: h in q.fences ==>
                      Fences.Valid(q.fences[h]) && Fences.Outstanding(q.fences[h]) == Held(q.jobs, h))
  }

  ghost predicate Valid(q: Queue) {
    && Bounded(q)
    && InArrivalOrder(q.jobs)
    && (forall k :: 0 <= k < |q.jobs| ==> q.jobs[k].id < q.arrivals)
    && NoOvertaking(q.jobs)
    && NumbersDistinct(q.jobs)
    && FencesTrackJobs(q)
  }

  // ---- counting ----

  lemma {:induction false} CountSet(jobs: seq<Job>, k: nat)
    requires k < |jobs| && !jobs[k].active
    ensures CountActive(jobs[k := jobs[k].(active := true)]) == CountActive(jobs) + 1
  {
    var set_ := jobs[k := jobs[k].(active := true)];
    if k == |jobs| - 1 {
      assert set_[..|jobs| - 1] == jobs[..|jobs| - 1];
    } else {
      CountSet(jobs[..|jobs| - 1], k);
      assert set_[..|jobs| - 1] == jobs[..|jobs| - 1][k := jobs[k].(active := true)];
    }
  }

  lemma {:induction false} CountWithout(jobs: seq<Job>, k: nat)
    requires k < |jobs|
    ensures CountActive(Basics.Without(jobs, k)) == CountActive(jobs) - if jobs[k].active then 1 else 0
  {
    var rest := Basics.Without(jobs, k);
    if k == |jobs| - 1 {
      assert rest == jobs[..|jobs| - 1];
    } else {
      CountWithout(jobs[..|jobs| - 1], k);
      assert rest[..|rest| - 1] == Basics.Without(jobs[..|jobs| - 1], k);
    }
  }

  lemma {:induction false} ActiveIsCounted(jobs: seq<Job>, k: nat)
    requires k < |jobs| && jobs[k].active
    ensures CountActive(jobs) > 0
  {
    if k < |jobs| - 1 {
      ActiveIsCounted(jobs[..|jobs| - 1], k);
    }
  }

  // ---- preservation ----

  lemma EnqueueHeld(q: Queue, h: Handle, r: Request, g: Handle)
    requires Valid(q) && CanEnqueue(q, h)
    ensures Held(Enqueue(q, h, r).jobs, g) ==
            Held(q.jobs, g) + if g == h then {FenceOf(q, h).accepted + 1} else {}
  {
    var after := Enqueue(q, h, r);
    var n := |q.jobs|;
    forall i | 0 <= i < n
      ensures after.jobs[i] == q.jobs[i]
    {
    }
    assert after.jobs[n].handle == h && after.jobs[n].sequence == FenceOf(q, h).accepted + 1;
    forall s | s in Held(q.jobs, g)
      ensures s in Held(after.jobs, g)
    {
      var i :| 0 <= i < |q.jobs| && q.jobs[i].handle == g && q.jobs[i].sequence == s;
      assert after.jobs[i].handle == g && after.jobs[i].sequence == s;
    }
  }

  lemma FreshFenceHoldsNothing(q: Queue, h: Handle)
    requires Valid(q)
    ensures Fences.Valid(FenceOf(q, h)) && Fences.Outstanding(FenceOf(q, h)) == Held(q.jobs, h)
  {
  }

  lemma AddFenceKeeps(q: Queue, h: Handle)
    requires Valid(q)
    ensures Valid(q.(fences := q.fences[h := FenceOf(q, h)]))
    ensures h !in q.fences ==> FenceOf(q, h) == Fences.FRESH
  {
  }

  lemma EnqueueKeepsJobs(q: Queue, h: Handle, r: Request)
    requires Valid(q) && CanEnqueue(q, h)
    ensures var jobs := Enqueue(q, h, r).jobs;
            InArrivalOrder(jobs) && NoOvertaking(jobs) && NumbersDistinct(jobs)
    ensures Bounded(Enqueue(q, h, r))
  {
    hide Conflict, Fences.Outstanding, Fences.Valid;
    var after := Enqueue(q, h, r);
    assert after.jobs[..|after.jobs| - 1] == q.jobs;
    FreshFenceHoldsNothing(q, h);
    Fences.AcceptAddsOne(FenceOf(q, h));
    forall i | 0 <= i < |q.jobs| && q.jobs[i].handle == h
      ensures q.jobs[i].sequence != FenceOf(q, h).accepted + 1
    {
      assert q.jobs[i].sequence in Held(q.jobs, h);
    }
  }

  lemma EnqueueKeepsFences(q: Queue, h: Handle, r: Request)
    requires Valid(q) && CanEnqueue(q, h)
    ensures FencesTrackJobs(Enqueue(q, h, r))
  {
    hide Bounded, InArrivalOrder, NoOvertaking, NumbersDistinct, Held, Fences.Outstanding, Fences.Valid;
    var after := Enqueue(q, h, r);
    forall g | g in after.fences
      ensures Fences.Valid(after.fences[g]) && Fences.Outstanding(after.fences[g]) == Held(after.jobs, g)
    {
      EnqueueHeld(q, h, r, g);
      if g == h {
        FreshFenceHoldsNothing(q, h);
        Fences.AcceptAddsOne(FenceOf(q, h));
      }
    }
  }

  lemma EnqueueKeeps(q: Queue, h: Handle, r: Request)
    requires Valid(q) && CanEnqueue(q, h)
    ensures Valid(Enqueue(q, h, r))
  {
    EnqueueKeepsJobs(q, h, r);
    EnqueueKeepsFences(q, h, r);
  }

  lemma ActivateKeeps(q: Queue, k: nat)
    requires Valid(q) && CanActivate(q, k)
    ensures Valid(Activate(q, k))
  {
    hide Held, CountActive, Conflict, Fences.Outstanding, Fences.Valid;
    var after := Activate(q, k);
    CountSet(q.jobs, k);
    forall h | h in after.fences
      ensures Held(after.jobs, h) == Held(q.jobs, h)
    {
      ActivateHeld(q.jobs, k, h);
    }
  }

  lemma ActivateHeld(jobs: seq<Job>, k: nat, h: Handle)
    requires k < |jobs|
    ensures Held(jobs[k := jobs[k].(active := true)], h) == Held(jobs, h)
  {
    var after := jobs[k := jobs[k].(active := true)];
    forall i | 0 <= i < |jobs|
      ensures after[i].handle == jobs[i].handle && after[i].sequence == jobs[i].sequence
    {
    }
  }

  /** The assertion in `fastdup_clone_finish` holds for every queued job. */
  lemma FinishAssertionHolds(q: Queue, k: nat)
    requires Valid(q) && k < |q.jobs|
    ensures q.jobs[k].handle in q.fences
    ensures Fences.CanComplete(q.fences[q.jobs[k].handle], q.jobs[k].sequence)
    ensures q.jobs[k].active ==> CanFinish(q, k)
  {
    var job := q.jobs[k];
    assert job.sequence in Held(q.jobs, job.handle);
    Fences.CompleteRemovesOne(q.fences[job.handle], job.sequence);
    if job.active {
      ActiveIsCounted(q.jobs, k);
    }
  }

  lemma FinishHeld(q: Queue, k: nat, h: Handle)
    requires Valid(q) && k < |q.jobs|
    ensures Held(Basics.Without(q.jobs, k), h) ==
            Held(q.jobs, h) - if h == q.jobs[k].handle then {q.jobs[k].sequence} else {}
  {
    var rest := Basics.Without(q.jobs, k);
    forall s | s in Held(q.jobs, h) && !(h == q.jobs[k].handle && s == q.jobs[k].sequence)
      ensures s in Held(rest, h)
    {
      var i :| 0 <= i < |q.jobs| && q.jobs[i].handle == h && q.jobs[i].sequence == s;
      var j := if i < k then i else i - 1;
      assert rest[j] == q.jobs[i];
    }
  }

  lemma FinishKeepsJobs(q: Queue, k: nat)
    requires Valid(q) && CanFinish(q, k)
    ensures var jobs := Finish(q, k).jobs;
            InArrivalOrder(jobs) && NoOvertaking(jobs) && NumbersDistinct(jobs)
    ensures Bounded(Finish(q, k))
  {
    CountWithout(q.jobs, k);
    WithoutKeepsOrder(q.jobs, k);
  }

  lemma WithoutKeepsOrder(jobs: seq<Job>, k: nat)
    requires k < |jobs|
    requires InArrivalOrder(jobs) && NoOvertaking(jobs) && NumbersDistinct(jobs)
    ensures var rest := Basics.Without(jobs, k);
            InArrivalOrder(rest) && NoOvertaking(rest) && NumbersDistinct(rest)
  {
  }

  lemma FinishKeepsFences(q: Queue, k: nat)
    requires Valid(q) && CanFinish(q, k)
    ensures FencesTrackJobs(Finish(q, k))
  {
    var after, job := Finish(q, k), q.jobs[k];
    forall h | h in after.fences
      ensures Fences.Valid(after.fences[h]) && Fences.Outstanding(after.fences[h]) == Held(after.jobs, h)
    {
      FinishHeld(q, k, h);
      if h == job.handle {
        Fences.CompleteRemovesOne(q.fences[h], job.sequence);
      }
    }
  }

  lemma FinishKeeps(q: Queue, k: nat)
    requires Valid(q) && CanFinish(q, k)
    ensures Valid(Finish(q, k))
  {
    FinishKeepsJobs(q, k);
    FinishKeepsFences(q, k);
  }

  /** CLOSE of a handle is safe exactly when no queued job targets it. */
  lemma CloseReadyIffUntargeted(q: Queue, h: Handle)
    requires Valid(q) && h in q.fences
    ensures q.fences[h].accepted == q.fences[h].applied <==>
            forall k :: 0 <= k < |q.jobs| ==> q.jobs[k].handle != h
  {
    Fences.AppliedIsLongestPrefix(q.fences[h]);
    forall k | 0 <= k < |q.jobs| && q.jobs[k].handle == h
      ensures Held(q.jobs, h) != {}
    {
      assert q.jobs[k].sequence in Held(q.jobs, h);
    }
  }

  lemma ActiveJobsNeverConflict(q: Queue, i: nat, j: nat)
    requires Valid(q) && i < |q.jobs| && j < |q.jobs| && i != j
    requires q.jobs[i].active && q.jobs[j].active
    ensures !Conflict(q.jobs[i].request, q.jobs[j].request)
  {
  }

  // ---- one scheduling pass ----

  /** Nothing more can start: eight jobs run, or every waiting job waits for an earlier one. */
  ghost predicate Settled(q: Queue) {
    || q.active >= ASYNC_CLONES
    || forall k :: 0 <= k < |q.jobs| && !q.jobs[k].active ==> Blocked(q.jobs, k)
  }

  /** A settled nonempty queue has a running job, so a completion will reschedule it. */
  lemma SettledMakesProgress(q: Queue)
    requires Valid(q) && Settled(q) && q.jobs != []
    ensures q.active > 0
    ensures exists k :: 0 <= k < |q.jobs| && q.jobs[k].active
  {
    if q.active > 0 {
      SomeoneCounted(q.jobs);
    } else if q.jobs[0].active {
      ActiveIsCounted(q.jobs, 0);
    }
  }

  lemma {:induction false} SomeoneCounted(jobs: seq<Job>)
    requires CountActive(jobs) > 0
    ensures exists k :: 0 <= k < |jobs| && jobs[k].active
  {
    if !jobs[|jobs| - 1].active {
      SomeoneCounted(jobs[..|jobs| - 1]);
      var k :| 0 <= k < |jobs| - 1 && jobs[..|jobs| - 1][k].active;
      assert jobs[k].active;
    }
  }

  datatype Action =
    | DoEnqueue(handle: Handle, request: Request)
    | DoActivate(position: nat)
    | DoFinish(position: nat)

  predicate Enabled(q: Queue, a: Action) {
    match a
    case DoEnqueue(h, r) => CanEnqueue(q, h)
    case DoActivate(k) => CanActivate(q, k)
    case DoFinish(k) => CanFinish(q, k)
  }

  function Apply(q: Queue, a: Action): (after: Queue)
    requires Enabled(q, a)
  {
    match a
    case DoEnqueue(h, r) => Enqueue(q, h, r)
    case DoActivate(k) => Activate(q, k)
    case DoFinish(k) => Finish(q, k)
  }

  lemma ApplyKeeps(q: Queue, a: Action)
    requires Valid(q) && Enabled(q, a)
    ensures Valid(Apply(q, a))
  {
    match a
    case DoEnqueue(h, r) => EnqueueKeeps(q, h, r);
    case DoActivate(k) => ActivateKeeps(q, k);
    case DoFinish(k) => FinishKeeps(q, k);
  }

  /** `after` is `before` followed by `actions`, each of them enabled in its turn. */
  ghost predicate Reaches(before: Queue, actions: seq<Action>, after: Queue)
    decreases |actions|
  {
    if actions == [] then after == before
    else Enabled(before, actions[0]) && Reaches(Apply(before, actions[0]), actions[1..], after)
  }

  lemma {:induction false} ReachesOneMore(before: Queue, actions: seq<Action>, middle: Queue, a: Action)
    requires Reaches(before, actions, middle) && Enabled(middle, a)
    ensures Reaches(before, actions + [a], Apply(middle, a))
    decreases |actions|
  {
    if actions == [] {
      assert (actions + [a])[1..] == [];
    } else {
      ReachesOneMore(Apply(before, actions[0]), actions[1..], middle, a);
      assert (actions + [a])[1..] == actions[1..] + [a];
    }
  }

  /** Bounds, ordering and fence bookkeeping over every run of queue updates. */
  lemma {:induction false} RunsStayValid(before: Queue, actions: seq<Action>, after: Queue)
    requires Valid(before) && Reaches(before, actions, after)
    ensures Valid(after)
    decreases |actions|
  {
    if actions != [] {
      ApplyKeeps(before, actions[0]);
      RunsStayValid(Apply(before, actions[0]), actions[1..], after);
    }
  }

  lemma EmptyIsValid()
    ensures Valid(EMPTY) && Settled(EMPTY)
  {
  }

  // ---- the event thread, updating the queue in place ----

  datatype SendStatus = Queued | InvalidRange | NoResources | TooManyCommands

  class CloneQueue {
    var jobs: seq<Job>
    var pending: nat
    var active: nat
    var fences: map<Handle, Fences.HandleFence>
    var arrivals: nat
    ghost var model: Queue

    /** The fields hold the modelled queue, and each handle owns its fence. */
    ghost predicate Represents()
      reads this, fences.Values
    {
      && model.jobs == jobs && model.pending == pending && model.active == active && model.arrivals == arrivals
      && model.fences.Keys == fences.Keys
      && (forall h :: h in fences ==> fences[h].View() == model.fences[h])
      && (forall g, h :: g in fences && h in fences && g != h ==> fences[g] != fences[h])
    }

    constructor ()
      ensures Represents() && model == EMPTY && Valid(model) && Settled(model)
      ensures fences == map[]
    {
      jobs, pending, active, fences, arrivals := [], 0, 0, map[], 0;
      model := EMPTY;
      new;
      EmptyIsValid();
    }

    /** `fastdup_clone_finish`: unlink the job and complete its fence number. */
    method FinishAt(k: nat)
      requires Represents() && Valid(model)
      requires k < |jobs| && jobs[k].active
      modifies this, fences.Values
      ensures old(CanFinish(model, k))
      ensures Represents() && model == Finish(old(model), k) && Valid(model)
      ensures fences == old(fences)
    {
      hide InArrivalOrder, NoOvertaking, NumbersDistinct, Held, Conflict;
      FinishAssertionHolds(model, k);
      FinishKeeps(model, k);
      var job := jobs[k];
      jobs := jobs[..k] + jobs[k + 1..];
      pending := pending - 1;
      active := active - 1;
      var completed := fences[job.handle].CompleteOne(job.sequence);
      assert completed;
      model := Finish(model, k);
    }

    /**
      Starts one unblocked job. The thread pool may refuse it, in which case the
      job fails and leaves the queue without having run.
     */
    method StartAt(k: nat) returns (submitted: bool)
      requires Represents() && Valid(model)
      requires CanActivate(model, k)
      modifies this, fences.Values
      ensures Represents() && model == Started(old(model), k, submitted) && Valid(model)
      ensures fences == old(fences)
    {
      ActivateKeeps(model, k);
      jobs := jobs[k := jobs[k].(active := true)];
      active := active + 1;
      model := Activate(model, k);
      submitted := *;
      if !submitted {
        FinishAt(k);
      }
    }

    /** The inner loop of the pass: does an earlier queued job conflict? */
    method IsBlocked(k: nat) returns (blocked: bool)
      requires k < |jobs|
      ensures blocked == Blocked(jobs, k)
    {
      var i := 0;
      while i < k
        invariant i <= k
        invariant forall j :: 0 <= j < i ==> !Conflict(jobs[j].request, jobs[k].request)
      {
        if Conflict(jobs[i].request, jobs[k].request) {
          return true;
        }
        i := i + 1;
      }
      return false;
    }

    /** `fastdup_clone_schedule`: one pass over the queue. */
    method Schedule() returns (ghost actions: seq<Action>)
      requires Represents() && Valid(model)
      modifies this, fences.Values
      ensures Represents() && Valid(model) && Settled(model)
      ensures Reaches(old(model), actions, model)
      ensures fences == old(fences)
    {
      hide Valid;
      actions := [];
      var i := 0;
      while i < |jobs| && active < ASYNC_CLONES
        invariant i <= |jobs|
        invariant fences == old(fences)
        invariant Represents() && Valid(model)
        invariant Reaches(old(model), actions, model)
        invariant Scanned(jobs, i)
        decreases |jobs| - i
      {
        var blocked := IsBlocked(i);
        if jobs[i].active || blocked {
          i := i + 1;
        } else {
          ghost var waiting := model;
          var submitted := StartAt(i);
          actions := ReachesStart(old(model), actions, waiting, i, submitted);
          ScannedStart(waiting, i, submitted);
          if submitted {
            i := i + 1;
          }
        }
      }
    }

    /** `fastdup_clone_done`: a worker returned; retire its job and start what it unblocked. */
    method Done(k: nat) returns (ghost actions: seq<Action>)
      requires Represents() && Valid(model)
      requires k < |jobs| && jobs[k].active
      modifies this, fences.Values
      ensures old(CanFinish(model, k))
      ensures Represents() && Valid(model) && Settled(model)
      ensures Reaches(Finish(old(model), k), actions, model)
      ensures fences == old(fences)
    {
      FinishAt(k);
      actions := Schedule();
    }

    /** `fastdup_fsp_state`: a handle gets a zeroed fence on first use. */
    method AddFence(h: Handle)
      requires Represents()
      modifies this`fences, this`model
      ensures Represents()
      ensures model == old(model).(fences := old(model).fences[h := FenceOf(old(model), h)])
      ensures h in fences && if h in old(fences) then fences == old(fences)
                             else fresh(fences[h]) && fences == old(fences)[h := fences[h]]
    {
      if h in fences {
        assert model.fences[h := FenceOf(model, h)] == model.fences;
      } else {
        var fence := new Fences.HandleFence();
        fences := fences[h := fence];
        model := model.(fences := model.fences[h := Fences.FRESH]);
      }
    }

    /** The enqueue part of `fastdup_offload_write_send`, without the scheduling pass. */
    method Append(h: Handle, r: Request)
      requires Represents() && Valid(model) && h in fences
      requires CanEnqueue(model, h)
      modifies this, fences.Values
      ensures Represents() && Valid(model) && model == Enqueue(old(model), h, r)
      ensures fences == old(fences)
    {
      hide Bounded, InArrivalOrder, NoOvertaking, NumbersDistinct, Held, Conflict;
      EnqueueKeeps(model, h, r);
      var accepted, sequence := fences[h].AcceptNext();
      jobs := jobs + [Job(arrivals, h, sequence, r, false)];
      pending := pending + 1;
      arrivals := arrivals + 1;
      model := Enqueue(model, h, r);
    }

    /** `fastdup_offload_write_send` for a duplicate-extents request. */
    method OffloadWrite(h: Handle, source: FileId, target: FileId,
                        sourceOffset: int, targetOffset: int, toCopy: int,
                        alignment: nat, maximum: nat, resources: bool)
      returns (status: SendStatus, ghost actions: seq<Action>)
      requires Represents() && Valid(model) && Settled(model)
      modifies this, fences.Values
      ensures Represents() && Valid(model) && Settled(model)
      ensures status == InvalidRange <==> sourceOffset < 0 || targetOffset < 0 || toCopy <= 0
      ensures status == Queued <==>
              status != InvalidRange && resources && old(CanEnqueue(model, h))
      ensures status == Queued <==>
                && sourceOffset >= 0 && targetOffset >= 0 && toCopy > 0 && resources && old(pending) < 64
                && var f := FenceOf(old(model), h); f.accepted < f.applied + 64 && f.accepted < 0xFFFF_FFFF_FFFF_FFFF
      ensures status == NoResources <==>
              status != InvalidRange && !resources && old(pending) < PENDING_CLONES
      ensures status == Queued ==>
              Reaches(Enqueue(old(model), h,
                              Request(source, target, sourceOffset, targetOffset, toCopy, alignment, maximum)),
                      actions, model)
      ensures status != Queued ==>
              && jobs == old(jobs) && pending == old(pending) && active == old(active) && arrivals == old(arrivals)
              && forall g :: FenceOf(model, g) == FenceOf(old(model), g)
    {
      hide Valid;
      actions := [];
      if sourceOffset < 0 || targetOffset < 0 || toCopy <= 0 {
        return InvalidRange, [];
      }
      if pending >= PENDING_CLONES {
        return TooManyCommands, [];
      }
      AddFenceKeeps(model, h);
      AddFence(h);
      if !resources {
        return NoResources, [];
      }
      var fence := fences[h];
      if !Fences.CanAccept(Fences.Fence(fence.accepted, fence.applied, fence.completed)) {
        return TooManyCommands, [];
      }
      var r := Request(source, target, sourceOffset, targetOffset, toCopy, alignment, maximum);
      EnqueueFreshFence(old(model), h, r);
      Append(h, r);
      actions := Schedule();
      return Queued, actions;
    }

    /** `fastdup_close`: the handle may close iff no queued job targets it. */
    method Close(h: Handle) returns (ready: bool)
      requires Represents() && Valid(model)
      ensures ready <==> forall k :: 0 <= k < |jobs| ==> jobs[k].handle != h
    {
      if h !in fences {
        assert h !in model.fences;
        return true;
      }
      CloseReadyIffUntargeted(model, h);
      Fences.AppliedIsLongestPrefix(fences[h].View());
      ready := fences[h].CloseReady();
    }
  }

  /** Every waiting job among the first `n` has an earlier conflicting job. */
  ghost predicate Scanned(jobs: seq<Job>, n: nat)
    requires n <= |jobs|
  {
    forall k :: 0 <= k < n && !jobs[k].active ==> Blocked(jobs, k)
  }

  function Started(q: Queue, k: nat, submitted: bool): (after: Queue)
    requires Valid(q) && CanActivate(q, k)
  {
    ActivateKeeps(q, k);
    FinishAssertionHolds(Activate(q, k), k);
    if submitted then Activate(q, k) else Finish(Activate(q, k), k)
  }

  lemma ReachesStart(before: Queue, actions: seq<Action>, q: Queue, k: nat, submitted: bool)
    returns (more: seq<Action>)
    requires Valid(q) && CanActivate(q, k)
    requires Reaches(before, actions, q)
    ensures Reaches(before, more, Started(q, k, submitted))
  {
    more := actions + [DoActivate(k)];
    ReachesOneMore(before, actions, q, DoActivate(k));
    if !submitted {
      ActivateKeeps(q, k);
      FinishAssertionHolds(Activate(q, k), k);
      ReachesOneMore(before, more, Activate(q, k), DoFinish(k));
      more := more + [DoFinish(k)];
    }
  }

  lemma ScannedStart(q: Queue, k: nat, submitted: bool)
    requires Valid(q) && CanActivate(q, k) && Scanned(q.jobs, k)
    ensures var after := Started(q, k, submitted);
            if submitted then k + 1 <= |after.jobs| && Scanned(after.jobs, k + 1)
            else k <= |after.jobs| && Scanned(after.jobs, k)
  {
    var after := Started(q, k, submitted);
    SameBlocking(q.jobs, after.jobs, k);
  }

  lemma EnqueueFreshFence(q: Queue, h: Handle, r: Request)
    requires CanEnqueue(q, h)
    ensures var added := q.(fences := q.fences[h := FenceOf(q, h)]);
            CanEnqueue(added, h) && Enqueue(added, h, r) == Enqueue(q, h, r)
  {
  }

  /** Which of the first `n` jobs are blocked depends only on their requests. */
  lemma SameBlocking(before: seq<Job>, after: seq<Job>, n: nat)
    requires n <= |before| && n <= |after|
    requires forall i :: 0 <= i < n ==> after[i].request == before[i].request && after[i].active == before[i].active
    ensures forall k :: 0 <= k < n ==> Blocked(after, k) == Blocked(before, k)
  {
  }
}
