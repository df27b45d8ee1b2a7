/**
  The whole clone system: the event thread's queue, the worker threads that
  check and copy, and the files they share. Every interleaving of their steps
  leaves the files, and every answer given to a client, as if the finished jobs
  had run one at a time in arrival order.
 */
module CloneSerializability {
  import opened CloneContract
  import opened Scheduler = CloneScheduler

  /** How far the worker of a job has come: `fastdup_clone_do` checks, then copies. */
  datatype Progress = NotRun | Checked | Returned

  /** What a worker reported for one job: the check's verdict and the system call's result. */
  datatype Outcome = Outcome(id: nat, request: Request, status: Status, copied: int)

  datatype System = System(
    queue: Queue,
    progress: map<nat, Progress>,
    files: Files,
    log: seq<Outcome>)

  datatype Step =
    | Admit(handle: Handle, request: Request)
    | Start(position: nat)
    | Check(position: nat)
    | Copy(position: nat, copied: int)
    | Retire(position: nat)

  predicate Owned(files: Files, r: Request) {
    r.source in files && r.target in files
  }

  predicate Running(s: System, k: nat, p: Progress) {
    && k < |s.queue.jobs| && s.queue.jobs[k].active
    && s.queue.jobs[k].id in s.progress && s.progress[s.queue.jobs[k].id] == p
    && Owned(s.files, s.queue.jobs[k].request)
  }

  /**
    Retiring does not ask whether the worker ran: a job whose thread could not
    be created is retired too, and then it never touched the files.
   */
  predicate CanStep(s: System, step: Step) {
    match step
    case Admit(h, r) => CanEnqueue(s.queue, h) && Owned(s.files, r)
    case Start(k) => CanActivate(s.queue, k)
    case Check(k) => Running(s, k, NotRun)
    case Copy(k, copied) => Running(s, k, Checked) && copied <= s.queue.jobs[k].request.length
    case Retire(k) => CanFinish(s.queue, k) && !Running(s, k, Checked)
  }

  /** The log kept in arrival order. */
  function Insert(log: seq<Outcome>, o: Outcome): (after: seq<Outcome>) {
    if log == [] || log[|log| - 1].id < o.id then log + [o]
    else Insert(log[..|log| - 1], o) + [log[|log| - 1]]
  }

  function Do(s: System, step: Step): (after: System)
    requires CanStep(s, step)
  {
    match step
    case Admit(h, r) =>
      s.(queue := Enqueue(s.queue, h, r), progress := s.progress[s.queue.arrivals := NotRun])
    case Start(k) =>
      s.(queue := Activate(s.queue, k))
    case Check(k) =>
      var job := s.queue.jobs[k];
      var status := Verdict(s.files, job.request);
      if status == Ok then s.(progress := s.progress[job.id := Checked])
      else s.(progress := s.progress[job.id := Returned],
              log := Insert(s.log, Outcome(job.id, job.request, status, -1)))
    case Copy(k, copied) =>
      var job := s.queue.jobs[k];
      var after := if copied > 0 then Written(s.files, job.request, copied) else s.files;
      s.(progress := s.progress[job.id := Returned],
         files := after,
         log := Insert(s.log, Outcome(job.id, job.request, Ok, copied)))
    case Retire(k) =>
      s.(queue := Finish(s.queue, k))
  }

  /** The copy itself: it trusts the check made earlier and does not repeat it. */
  function Written(files: Files, r: Request, copied: nat): (after: Files)
    requires Owned(files, r)
  {
    var source, target := files[r.source], files[r.target];
    if copied <= r.length && r.sourceOffset + r.length <= |source.bytes| && r.targetOffset + r.length <= |target.bytes|
    then files[r.target := Copied(source, target, r, copied)]
    else files
  }

  function Init(files: Files): (s: System) {
    System(EMPTY, map[], files, [])
  }

  /** `after` is reached from `s` by taking `steps`, each enabled in its turn. */
  ghost predicate Run(s: System, steps: seq<Step>, after: System)
    decreases |steps|
  {
    if steps == [] then after == s
    else CanStep(s, steps[0]) && Run(Do(s, steps[0]), steps[1..], after)
  }

  // ---- one job at a time ----

  predicate Wellformed(files: Files, log: seq<Outcome>) {
    forall i :: 0 <= i < |log| ==> Owned(files, log[i].request) && log[i].copied <= log[i].request.length
  }

  predicate Ascending(log: seq<Outcome>) {
    forall i, j :: 0 <= i < j < |log| ==> log[i].id < log[j].id
  }

  /** The files after running the logged jobs one at a time, in order. */
  function Serial(files: Files, log: seq<Outcome>): (after: Files)
    requires Wellformed(files, log)
    ensures after.Keys == files.Keys
  {
    if log == [] then files
    else
      var o := log[|log| - 1];
      Perform(Serial(files, log[..|log| - 1]), o.request, o.copied)
  }

  /** Each logged verdict is the one the serial run gives. */
  predicate SameAnswers(files: Files, log: seq<Outcome>)
    requires Wellformed(files, log)
  {
    log == [] ||
    var o := log[|log| - 1];
    && SameAnswers(files, log[..|log| - 1])
    && o.status == Verdict(Serial(files, log[..|log| - 1]), o.request)
  }

  // ---- inserting a job that the later ones did not conflict with ----

  predicate Independent(log: seq<Outcome>, o: Outcome) {
    forall i :: 0 <= i < |log| && log[i].id >= o.id ==> log[i].id > o.id && !Conflict(log[i].request, o.request)
  }

  lemma {:induction false} InsertShape(files: Files, log: seq<Outcome>, o: Outcome)
    requires Wellformed(files, log) && Owned(files, o.request) && o.copied <= o.request.length
    ensures Wellformed(files, Insert(log, o))
    ensures |Insert(log, o)| == |log| + 1
    ensures forall x :: x in Insert(log, o) <==> x in log || x == o
  {
    if !(log == [] || log[|log| - 1].id < o.id) {
      InsertShape(files, log[..|log| - 1], o);
      assert log == log[..|log| - 1] + [log[|log| - 1]];
    }
  }

  lemma {:induction false} InsertAscending(log: seq<Outcome>, o: Outcome)
    requires Ascending(log) && Independent(log, o)
    ensures Ascending(Insert(log, o))
    ensures forall x :: x in Insert(log, o) <==> x in log || x == o
  {
    if !(log == [] || log[|log| - 1].id < o.id) {
      var before, last := log[..|log| - 1], log[|log| - 1];
      InsertAscending(before, o);
      assert log == before + [last];
      var after := Insert(before, o);
      forall i | 0 <= i < |after|
        ensures after[i].id < last.id
      {
        assert after[i] in after;
      }
    }
  }

  /** Running the late job last, or in its arrival place, makes no difference to anyone. */
  lemma {:induction false} InsertCommutes(files: Files, log: seq<Outcome>, o: Outcome)
    requires Wellformed(files, log) && SameAnswers(files, log)
    requires Owned(files, o.request) && o.copied <= o.request.length
    requires Independent(log, o)
    requires o.status == Verdict(Serial(files, log), o.request)
    ensures Wellformed(files, Insert(log, o))
    ensures Serial(files, Insert(log, o)) == Perform(Serial(files, log), o.request, o.copied)
    ensures SameAnswers(files, Insert(log, o))
  {
    hide Verdict, Perform, Conflict;
    InsertShape(files, log, o);
    if log == [] || log[|log| - 1].id < o.id {
      assert Insert(log, o)[..|log|] == log;
    } else {
      var before, last := log[..|log| - 1], log[|log| - 1];
      var base := Serial(files, before);
      assert !Conflict(last.request, o.request);
      Commute(base, last.request, last.copied, o.request, o.copied);
      InsertCommutes(files, before, o);
      assert Insert(log, o)[..|log|] == Insert(before, o);
    }
  }

  // ---- what every step keeps ----

  function ProgressOf(s: System, k: nat): (p: Progress)
    requires k < |s.queue.jobs|
  {
    var id := s.queue.jobs[k].id;
    if id in s.progress then s.progress[id] else NotRun
  }

  /** The files and the log agree with the serial run so far. */
  ghost predicate SerialSoFar(start: Files, files: Files, log: seq<Outcome>) {
    && Wellformed(start, log) && Ascending(log)
    && files == Serial(start, log)
    && SameAnswers(start, log)
  }

  ghost predicate JobsKnown(s: System) {
    && (forall k :: 0 <= k < |s.queue.jobs| ==>
          && Owned(s.files, s.queue.jobs[k].request)
          && s.queue.jobs[k].id in s.progress
          && (!s.queue.jobs[k].active ==> ProgressOf(s, k) == NotRun))
    && (forall id: nat :: id in s.progress <==> id < s.queue.arrivals)
  }

  /** The log holds exactly the jobs whose worker returned. */
  ghost predicate LogMatchesProgress(log: seq<Outcome>, progress: map<nat, Progress>) {
    && (forall i :: 0 <= i < |log| ==> log[i].id in progress && progress[log[i].id] == Returned)
    && (forall id :: id in progress && progress[id] == Returned ==> exists i :: 0 <= i < |log| && log[i].id == id)
  }

  /** No job that returned had overtaken a queued job it conflicts with. */
  ghost predicate NoneOvertaken(s: System) {
    forall i, k :: 0 <= i < |s.log| && 0 <= k < |s.queue.jobs| && ProgressOf(s, k) != Returned
                   && s.log[i].id > s.queue.jobs[k].id ==>
                     !Conflict(s.log[i].request, s.queue.jobs[k].request)
  }

  /** A check that passed is still true when the copy is made. */
  ghost predicate ChecksStand(s: System) {
    forall k :: 0 <= k < |s.queue.jobs| && ProgressOf(s, k) == Checked && Owned(s.files, s.queue.jobs[k].request) ==>
                  Verdict(s.files, s.queue.jobs[k].request) == Ok
  }

  ghost predicate Consistent(start: Files, s: System) {
    && Valid(s.queue)
    && JobsKnown(s)
    && LogMatchesProgress(s.log, s.progress)
    && NoneOvertaken(s)
    && ChecksStand(s)
    && SerialSoFar(start, s.files, s.log)
  }

  lemma InitConsistent(files: Files)
    ensures Consistent(files, Init(files))
  {
  }

  lemma ValidOrder(q: Queue)
    requires Valid(q)
    ensures InArrivalOrder(q.jobs) && NoOvertaking(q.jobs)
    ensures forall k :: 0 <= k < |q.jobs| ==> q.jobs[k].id < q.arrivals
    ensures forall i, j :: 0 <= i < |q.jobs| && 0 <= j < |q.jobs| && i != j ==> q.jobs[i].id != q.jobs[j].id
  {
  }

  lemma AdmitKeeps(start: Files, s: System, h: Handle, r: Request)
    requires Consistent(start, s) && CanStep(s, Admit(h, r))
    ensures Consistent(start, Do(s, Admit(h, r)))
  {
    hide Valid, SerialSoFar;
    EnqueueKeeps(s.queue, h, r);
    ValidOrder(s.queue);
    var after := Do(s, Admit(h, r));
    forall k | 0 <= k < |s.queue.jobs|
      ensures after.queue.jobs[k] == s.queue.jobs[k] && ProgressOf(after, k) == ProgressOf(s, k)
    {
    }
    forall i | 0 <= i < |s.log|
      ensures s.log[i].id < s.queue.arrivals
    {
    }
  }

  lemma StartKeeps(start: Files, s: System, k: nat)
    requires Consistent(start, s) && CanStep(s, Start(k))
    ensures Consistent(start, Do(s, Start(k)))
  {
    hide Valid, SerialSoFar, LogMatchesProgress;
    ActivateKeeps(s.queue, k);
    var after := Do(s, Start(k));
    forall j | 0 <= j < |s.queue.jobs|
      ensures ProgressOf(after, j) == ProgressOf(s, j)
      ensures after.queue.jobs[j].request == s.queue.jobs[j].request && after.queue.jobs[j].id == s.queue.jobs[j].id
    {
    }
  }

  lemma RetireKeeps(start: Files, s: System, k: nat)
    requires Consistent(start, s) && CanStep(s, Retire(k))
    ensures Consistent(start, Do(s, Retire(k)))
  {
    hide Valid, SerialSoFar, LogMatchesProgress;
    FinishKeeps(s.queue, k);
    var after := Do(s, Retire(k));
    forall j | 0 <= j < |after.queue.jobs|
      ensures var i := if j < k then j else j + 1;
              after.queue.jobs[j] == s.queue.jobs[i] && ProgressOf(after, j) == ProgressOf(s, i)
    {
    }
  }

  /** A returning worker's outcome belongs in the log where its arrival number says. */
  lemma OutcomeIndependent(start: Files, s: System, k: nat, o: Outcome)
    requires Consistent(start, s) && k < |s.queue.jobs| && s.queue.jobs[k].active && ProgressOf(s, k) != Returned
    requires o.id == s.queue.jobs[k].id && o.request == s.queue.jobs[k].request
    ensures Independent(s.log, o)
  {
  }

  /** Logging the outcome of a returning worker keeps every clause about the log. */
  lemma LoggingKeeps(start: Files, s: System, k: nat, o: Outcome, files: Files)
    requires Consistent(start, s) && k < |s.queue.jobs| && s.queue.jobs[k].active && ProgressOf(s, k) != Returned
    requires o.id == s.queue.jobs[k].id && o.request == s.queue.jobs[k].request && o.copied <= o.request.length
    requires o.status == Verdict(s.files, o.request)
    requires files == Perform(s.files, o.request, o.copied)
    ensures Consistent(start, s.(files := files, progress := s.progress[o.id := Returned], log := Insert(s.log, o)))
  {
    hide Valid, LogMatchesProgress, NoneOvertaken, ChecksStand, SerialSoFar, Insert, Verdict, Perform;
    var after := s.(files := files, progress := s.progress[o.id := Returned], log := Insert(s.log, o));
    LoggedSerial(start, s, k, o, files);
    ValidOrder(s.queue);
    LoggedProgress(s, k, o, after);
    LoggedOrder(start, s, k, o, after);
    LoggedChecks(start, s, k, o, after);
  }

  lemma LoggedSerial(start: Files, s: System, k: nat, o: Outcome, files: Files)
    requires Consistent(start, s) && k < |s.queue.jobs| && s.queue.jobs[k].active && ProgressOf(s, k) != Returned
    requires o.id == s.queue.jobs[k].id && o.request == s.queue.jobs[k].request && o.copied <= o.request.length
    requires o.status == Verdict(s.files, o.request)
    requires files == Perform(s.files, o.request, o.copied)
    ensures SerialSoFar(start, files, Insert(s.log, o))
    ensures forall x :: x in Insert(s.log, o) <==> x in s.log || x == o
  {
    hide Valid, Verdict, Perform;
    OutcomeIndependent(start, s, k, o);
    InsertCommutes(start, s.log, o);
    InsertAscending(s.log, o);
  }

  lemma LoggedProgress(s: System, k: nat, o: Outcome, after: System)
    requires LogMatchesProgress(s.log, s.progress) && InArrivalOrder(s.queue.jobs) && k < |s.queue.jobs|
    requires o.id == s.queue.jobs[k].id
    requires after.log == Insert(s.log, o) && forall x :: x in after.log <==> x in s.log || x == o
    requires after.progress == s.progress[o.id := Returned] && after.queue == s.queue
    ensures LogMatchesProgress(after.log, after.progress)
    ensures forall j :: 0 <= j < |s.queue.jobs| && j != k ==> ProgressOf(after, j) == ProgressOf(s, j)
  {
    forall i | 0 <= i < |after.log|
      ensures after.log[i].id in after.progress && after.progress[after.log[i].id] == Returned
    {
      assert after.log[i] in after.log;
      if after.log[i] in s.log {
        var j :| 0 <= j < |s.log| && s.log[j] == after.log[i];
      }
    }
    forall id | id in after.progress && after.progress[id] == Returned
      ensures exists i :: 0 <= i < |after.log| && after.log[i].id == id
    {
      if id == o.id {
        assert o in after.log;
      } else {
        var j :| 0 <= j < |s.log| && s.log[j].id == id;
        assert s.log[j] in after.log;
      }
    }
    forall j | 0 <= j < |s.queue.jobs| && j != k
      ensures ProgressOf(after, j) == ProgressOf(s, j)
    {
      if j < k { assert s.queue.jobs[j].id < s.queue.jobs[k].id; }
    }
  }

  lemma LoggedOrder(start: Files, s: System, k: nat, o: Outcome, after: System)
    requires Consistent(start, s) && k < |s.queue.jobs| && s.queue.jobs[k].active
    requires o.id == s.queue.jobs[k].id && o.request == s.queue.jobs[k].request
    requires after.queue == s.queue && ProgressOf(after, k) == Returned
    requires forall j :: 0 <= j < |s.queue.jobs| && j != k ==> ProgressOf(after, j) == ProgressOf(s, j)
    requires forall x :: x in after.log <==> x in s.log || x == o
    ensures NoneOvertaken(after)
  {
    forall i, j | 0 <= i < |after.log| && 0 <= j < |s.queue.jobs| && ProgressOf(after, j) != Returned
                  && after.log[i].id > s.queue.jobs[j].id
      ensures !Conflict(after.log[i].request, s.queue.jobs[j].request)
    {
      assert after.log[i] in after.log;
      if after.log[i] in s.log {
        var n :| 0 <= n < |s.log| && s.log[n] == after.log[i];
        assert ProgressOf(s, j) != Returned;
      } else {
        assert !Conflict(s.queue.jobs[j].request, s.queue.jobs[k].request);
      }
    }
  }

  lemma LoggedChecks(start: Files, s: System, k: nat, o: Outcome, after: System)
    requires Consistent(start, s) && k < |s.queue.jobs| && s.queue.jobs[k].active
    requires o.request == s.queue.jobs[k].request && o.copied <= o.request.length
    requires after.queue == s.queue && ProgressOf(after, k) == Returned
    requires after.files == Perform(s.files, o.request, o.copied)
    requires forall j :: 0 <= j < |s.queue.jobs| && j != k ==> ProgressOf(after, j) == ProgressOf(s, j)
    ensures ChecksStand(after)
  {
  }

  lemma CheckKeeps(start: Files, s: System, k: nat)
    requires Consistent(start, s) && CanStep(s, Check(k))
    ensures Consistent(start, Do(s, Check(k)))
  {
    hide Valid, SerialSoFar;
    var job, after := s.queue.jobs[k], Do(s, Check(k));
    var status := Verdict(s.files, job.request);
    if status == Ok {
      ValidOrder(s.queue);
      forall j | 0 <= j < |s.queue.jobs| && j != k
        ensures ProgressOf(after, j) == ProgressOf(s, j)
      {
      }
    } else {
      LoggingKeeps(start, s, k, Outcome(job.id, job.request, status, -1), s.files);
      assert after == s.(files := s.files, progress := s.progress[job.id := Returned],
                         log := Insert(s.log, Outcome(job.id, job.request, status, -1)));
    }
  }

  lemma CopyKeeps(start: Files, s: System, k: nat, copied: int)
    requires Consistent(start, s) && CanStep(s, Copy(k, copied))
    ensures Consistent(start, Do(s, Copy(k, copied)))
  {
    hide Valid, SerialSoFar, LogMatchesProgress, NoneOvertaken;
    var job := s.queue.jobs[k];
    assert ProgressOf(s, k) == Checked;
    LoggingKeeps(start, s, k, Outcome(job.id, job.request, Ok, copied), Perform(s.files, job.request, copied));
  }

  lemma StepKeeps(start: Files, s: System, step: Step)
    requires Consistent(start, s) && CanStep(s, step)
    ensures Consistent(start, Do(s, step))
  {
    match step
    case Admit(h, r) => AdmitKeeps(start, s, h, r);
    case Start(k) => StartKeeps(start, s, k);
    case Check(k) => CheckKeeps(start, s, k);
    case Copy(k, copied) => CopyKeeps(start, s, k, copied);
    case Retire(k) => RetireKeeps(start, s, k);
  }

  lemma {:induction false} RunKeeps(start: Files, s: System, steps: seq<Step>, after: System)
    requires Consistent(start, s) && Run(s, steps, after)
    ensures Consistent(start, after)
    decreases |steps|
  {
    if steps != [] {
      StepKeeps(start, s, steps[0]);
      RunKeeps(start, Do(s, steps[0]), steps[1..], after);
    }
  }

  /**
    Serializability. For every interleaving of admissions, starts, checks,
    copies and retirements: the files are those of a serial run, in arrival
    order, of exactly the jobs whose workers returned, and each of those jobs
    was given the verdict that the serial run gives it.
   */
  lemma Serializable(files: Files, steps: seq<Step>, s: System)
    requires Run(Init(files), steps, s)
    ensures Wellformed(files, s.log) && Ascending(s.log)
    ensures s.files == Serial(files, s.log)
    ensures SameAnswers(files, s.log)
    ensures forall id :: (id in s.progress && s.progress[id] == Returned)
                         <==> exists i :: 0 <= i < |s.log| && s.log[i].id == id
    ensures Valid(s.queue)
  {
    InitConsistent(files);
    RunKeeps(files, Init(files), steps, s);
  }
}
