/** The parallel part of test.py: one main thread, some worker threads, two FIFO queues, and an interrupt
    flag, as a transition system. One action is one access to what the threads share (a queue, the flag,
    another thread's end), or the start or the end of a process, with the thread's own work around it. */
module Dispatcher {

  // `ran` records that the job's process was launched; it is not a field of the original.
  datatype Job = Job(isBreak: bool, isSkip: bool, returncode: int, ran: bool)

  /** What travels through the input queue: a job, or one of the special jobs that stop a worker. */
  datatype Message = Work(id: nat) | Sentinel

  /** Where a worker is in its loop. */
  datatype Worker =
    | Waiting                // about to get from the input queue
    | Holding(id: nat)       // has a job, is about to look at the interrupt flag
    | Cleared(id: nat)       // has found the flag unset, is about to launch the subprocess
    | Running(id: nat)       // its subprocess has been launched
    | Returning(id: nat)     // about to put the job on the output queue
    | Stopped

  datatype Counts = Counts(passed: nat, skipped: nat, failed: nat, valgrind: nat, crashed: nat, interrupted: nat)

  datatype State = State(
    jobs: seq<Job>,
    workers: seq<Worker>,
    input: seq<Message>,
    output: seq<nat>,
    threadExit: bool,
    dispatched: nat,         // how many jobs main has put on the input queue
    sentinels: nat,          // how many sentinels main has put there
    collected: seq<nat>,     // the jobs main has taken from the output queue
    joined: nat,             // how many workers main has joined
    counts: Counts)

  datatype Phase = Dispatching | Stopping | Collecting | Joining | Finished

  /** The loop that main is in; its loops run one after the other. */
  function MainPhase(s: State): Phase {
    if s.dispatched < |s.jobs| then Dispatching
    else if s.sentinels < |s.workers| then Stopping
    else if |s.collected| < |s.jobs| then Collecting
    else if s.joined < |s.workers| then Joining
    else Finished
  }

  const NO_COUNTS := Counts(0, 0, 0, 0, 0, 0)

  function Initial(skips: seq<bool>, processors: nat): State {
    State(seq(|skips|, i requires 0 <= i < |skips| => Job(false, skips[i], 0, false)),
          seq(processors, _ => Waiting), [], [], false, 0, 0, [], 0, NO_COUNTS)
  }

  // ----- steps -------------------------------------------------------------

  /** How the collecting loop counts one returned job. */
  function Tally(counts: Counts, job: Job): Counts {
    if job.isBreak then counts.(interrupted := counts.interrupted + 1)
    else if job.isSkip then counts.(skipped := counts.skipped + 1)
    else if job.returncode == 0 then counts.(passed := counts.passed + 1)
    else if job.returncode == 1 then counts.(failed := counts.failed + 1)
    else if job.returncode == 2 then counts.(valgrind := counts.valgrind + 1)
    else counts.(crashed := counts.crashed + 1)
  }

  predicate MainEnabled(s: State) {
    match MainPhase(s)
    case Dispatching => true
    case Stopping => true
    case Collecting => s.output != [] && s.output[0] < |s.jobs|
    case Joining => s.workers[s.joined] == Stopped
    case Finished => false
  }

  function MainStep(s: State): State
    requires MainEnabled(s)
  {
    match MainPhase(s)
    case Dispatching => s.(input := s.input + [Work(s.dispatched)], dispatched := s.dispatched + 1)
    case Stopping => s.(input := s.input + [Sentinel], sentinels := s.sentinels + 1)
    case Collecting =>
      s.(output := s.output[1..], collected := s.collected + [s.output[0]],
         counts := Tally(s.counts, s.jobs[s.output[0]]))
    case Joining => s.(joined := s.joined + 1)
  }

  predicate WorkerEnabled(s: State, w: nat)
    requires w < |s.workers|
  {
    match s.workers[w]
    case Waiting => s.input != []
    case Holding(id) => id < |s.jobs|
    case Cleared(id) => id < |s.jobs|
    case Running(id) => id < |s.jobs|
    case Returning(_) => true
    case Stopped => false
  }

  /** One step of worker `w`; a subprocess may return any code `rc`. */
  function WorkerStep(s: State, w: nat, rc: int): State
    requires w < |s.workers| && WorkerEnabled(s, w)
  {
    match s.workers[w]
    case Waiting =>
      s.(input := s.input[1..],
         workers := s.workers[w := if s.input[0] == Sentinel then Stopped else Holding(s.input[0].id)])
    case Holding(id) =>
      var job := s.jobs[id];
      if s.threadExit then
        s.(jobs := s.jobs[id := job.(isBreak := true)], workers := s.workers[w := Returning(id)])
      else if job.isSkip then
        s.(workers := s.workers[w := Returning(id)])
      else
        s.(workers := s.workers[w := Cleared(id)])
    case Cleared(id) =>
      s.(jobs := s.jobs[id := s.jobs[id].(ran := true)], workers := s.workers[w := Running(id)])
    case Running(id) =>
      s.(jobs := s.jobs[id := s.jobs[id].(returncode := rc)], workers := s.workers[w := Returning(id)])
    case Returning(id) =>
      s.(output := s.output + [id], workers := s.workers[w := Waiting])
  }

  datatype Action = MainAction | WorkerAction(w: nat, rc: int) | Interrupt

  /** A further interrupt changes nothing, so only the first one is a step. */
  predicate Enabled(s: State, a: Action) {
    match a
    case MainAction => MainEnabled(s)
    case WorkerAction(w, _) => w < |s.workers| && WorkerEnabled(s, w)
    case Interrupt => !s.threadExit
  }

  function Apply(s: State, a: Action): State
    requires Enabled(s, a)
  {
    match a
    case MainAction => MainStep(s)
    case WorkerAction(w, rc) => WorkerStep(s, w, rc)
    case Interrupt => s.(threadExit := true)
  }

  // ----- what every state satisfies ----------------------------------------

  ghost function HeldBy(workers: seq<Worker>, id: nat): nat {
    multiset(workers)[Holding(id)] + multiset(workers)[Cleared(id)] + multiset(workers)[Running(id)]
    + multiset(workers)[Returning(id)]
  }

  /** In how many places job `id` is. */
  ghost function Places(s: State, id: nat): nat {
    (if id < s.dispatched then 0 else 1)
    + multiset(s.input)[Work(id)]
    + HeldBy(s.workers, id)
    + multiset(s.output)[id]
    + multiset(s.collected)[id]
  }

  ghost predicate OnePlaceEach(s: State) {
    forall id: nat :: Places(s, id) == 1
  }

  /** Main's loops run in order. */
  ghost predicate InOrder(s: State) {
    && s.dispatched <= |s.jobs|
    && s.sentinels <= |s.workers|
    && |s.collected| <= |s.jobs|
    && s.joined <= |s.workers|
    && (s.sentinels > 0 ==> s.dispatched == |s.jobs|)
    && (s.collected != [] ==> s.sentinels == |s.workers| && s.dispatched == |s.jobs|)
    && (s.joined > 0 ==> s.sentinels == |s.workers| && |s.collected| == |s.jobs|)
    && (forall w :: 0 <= w < s.joined ==> s.workers[w] == Stopped)
  }

  /** Sentinels stand behind all jobs, none is lost, and nobody stops before the jobs are gone. */
  ghost predicate SentinelsLast(s: State) {
    && (forall i, j :: 0 <= i < j < |s.input| && s.input[i] == Sentinel ==> s.input[j] == Sentinel)
    && multiset(s.input)[Sentinel] + multiset(s.workers)[Stopped] == s.sentinels
    && (Stopped in s.workers ==> forall m :: m in s.input ==> m == Sentinel)
  }

  ghost predicate Untouched(job: Job) {
    !job.isBreak && !job.ran
  }

  ghost predicate Settled(s: State, job: Job) {
    && (job.isBreak ==> s.threadExit && !job.ran)
    && (!job.isBreak ==> (job.ran <==> !job.isSkip))
  }

  ghost predicate JobAgrees(s: State, id: nat)
    requires id < |s.jobs|
  {
    var job := s.jobs[id];
    && (id >= s.dispatched || Work(id) in s.input || Holding(id) in s.workers ==> Untouched(job))
    && (Cleared(id) in s.workers ==> Untouched(job) && !job.isSkip)
    && (Running(id) in s.workers ==> job.ran && !job.isBreak && !job.isSkip)
    && (Returning(id) in s.workers || id in s.output || id in s.collected ==> Settled(s, job))
  }

  ghost predicate JobsAgree(s: State) {
    forall id: nat :: id < |s.jobs| ==> JobAgrees(s, id)
  }

  /** These are the ids of some jobs. */
  ghost predicate KnownJobs(jobs: seq<Job>, ids: seq<nat>) {
    forall i :: 0 <= i < |ids| ==> ids[i] < |jobs|
  }

  ghost function TallyAll(jobs: seq<Job>, ids: seq<nat>): Counts
    requires KnownJobs(jobs, ids)
  {
    if ids == [] then NO_COUNTS
    else Tally(TallyAll(jobs, ids[..|ids| - 1]), jobs[ids[|ids| - 1]])
  }

  ghost predicate Inv(s: State) {
    && InOrder(s)
    && OnePlaceEach(s)
    && SentinelsLast(s)
    && JobsAgree(s)
    && KnownJobs(s.jobs, s.collected)
    && s.counts == TallyAll(s.jobs, s.collected)
  }

  // ----- every action keeps it ---------------------------------------------

  lemma PlaceOf(s: State, id: nat)
    requires OnePlaceEach(s)
    ensures Places(s, id) == 1
  {
  }

  lemma Placed(s: State, id: nat)
    requires InOrder(s) && OnePlaceEach(s)
    requires Work(id) in s.input || Holding(id) in s.workers || Cleared(id) in s.workers || Running(id) in s.workers
          || Returning(id) in s.workers || id in s.output || id in s.collected
    ensures id < s.dispatched <= |s.jobs|
  {
    PlaceOf(s, id);
  }

  lemma InvInitial(skips: seq<bool>, processors: nat)
    ensures Inv(Initial(skips, processors))
  {
  }

  lemma KeepInOrder(s: State, a: Action)
    requires InOrder(s) && Enabled(s, a)
    ensures InOrder(Apply(s, a))
  {
    hide Tally;
    match a
    case MainAction =>
    case WorkerAction(w, rc) =>
      assert forall v :: 0 <= v < s.joined ==> s.workers[v] == Stopped;
    case Interrupt =>
  }

  lemma KeepPlaces(s: State, a: Action)
    requires Inv(s) && Enabled(s, a)
    ensures OnePlaceEach(Apply(s, a))
  {
    var t := Apply(s, a);
    forall id: nat ensures Places(t, id) == 1 {
      PlaceOf(s, id);
      KeepPlace(s, a, id);
    }
  }

  ghost function HeldByOne(worker: Worker, id: nat): nat {
    if worker == Holding(id) || worker == Cleared(id) || worker == Running(id) || worker == Returning(id) then 1 else 0
  }

  lemma HeldByUpdate(workers: seq<Worker>, w: nat, worker: Worker, id: nat)
    requires w < |workers|
    ensures HeldBy(workers[w := worker], id) == HeldBy(workers, id) - HeldByOne(workers[w], id) + HeldByOne(worker, id)
  {
    CountUpdate(workers, w, worker, Holding(id));
    CountUpdate(workers, w, worker, Cleared(id));
    CountUpdate(workers, w, worker, Running(id));
    CountUpdate(workers, w, worker, Returning(id));
  }

  lemma CountUpdate<T(!new)>(s: seq<T>, i: nat, x: T, y: T)
    requires i < |s|
    ensures multiset(s[i := x])[y] == multiset(s)[y] - (if s[i] == y then 1 else 0) + if x == y then 1 else 0
  {
    assert multiset(s[i := x]) == multiset(s) - multiset{s[i]} + multiset{x};
  }

  lemma HeadTail<T>(q: seq<T>)
    requires q != []
    ensures multiset(q) == multiset{q[0]} + multiset(q[1..])
  {
    assert q == [q[0]] + q[1..];
  }

  lemma KeepPlaceMain(s: State, id: nat)
    requires MainEnabled(s)
    ensures Places(MainStep(s), id) == Places(s, id)
  {
    if MainPhase(s) == Collecting {
      HeadTail(s.output);
    }
  }

  lemma KeepPlaceWorker(s: State, w: nat, rc: int, id: nat)
    requires w < |s.workers| && WorkerEnabled(s, w)
    ensures Places(WorkerStep(s, w, rc), id) == Places(s, id)
  {
    hide HeldBy, MainPhase;
    var t := WorkerStep(s, w, rc);
    HeldByUpdate(s.workers, w, t.workers[w], id);
    assert t.workers == s.workers[w := t.workers[w]];
    QueuesUpdate(s, w, rc, id);
    hide WorkerStep, WorkerEnabled, HeldByOne;
  }

  /** What a worker takes from the input queue it holds, and what it puts on the output queue it held. */
  ghost predicate Moved(s: State, w: nat, t: State, id: nat)
    requires w < |s.workers| == |t.workers|
  {
    && t.dispatched == s.dispatched && t.collected == s.collected
    && multiset(t.input)[Work(id)] + multiset(t.output)[id] + HeldByOne(t.workers[w], id)
       == multiset(s.input)[Work(id)] + multiset(s.output)[id] + HeldByOne(s.workers[w], id)
  }

  lemma QueuesUpdate(s: State, w: nat, rc: int, id: nat)
    requires w < |s.workers| && WorkerEnabled(s, w)
    ensures |WorkerStep(s, w, rc).workers| == |s.workers| && Moved(s, w, WorkerStep(s, w, rc), id)
  {
    if s.workers[w].Waiting? {
      MovedIn(s, w, rc, id);
    } else if s.workers[w].Returning? {
      MovedOut(s, w, rc, id);
    } else {
      MovedNothing(s, w, rc, id);
    }
  }

  lemma MovedIn(s: State, w: nat, rc: int, id: nat)
    requires w < |s.workers| && WorkerEnabled(s, w) && s.workers[w] == Waiting
    ensures |WorkerStep(s, w, rc).workers| == |s.workers| && Moved(s, w, WorkerStep(s, w, rc), id)
  {
    OneLessOf(s.input, Work(id));
  }

  lemma MovedOut(s: State, w: nat, rc: int, id: nat)
    requires w < |s.workers| && WorkerEnabled(s, w) && s.workers[w].Returning?
    ensures |WorkerStep(s, w, rc).workers| == |s.workers| && Moved(s, w, WorkerStep(s, w, rc), id)
  {
    OneMoreOf(s.output, s.workers[w].id, id);
  }

  lemma MovedNothing(s: State, w: nat, rc: int, id: nat)
    requires w < |s.workers| && WorkerEnabled(s, w) && !s.workers[w].Waiting? && !s.workers[w].Returning?
    ensures |WorkerStep(s, w, rc).workers| == |s.workers| && Moved(s, w, WorkerStep(s, w, rc), id)
  {
  }

  lemma OneLessOf(q: seq<Message>, m: Message)
    requires q != []
    ensures multiset(q)[m] == multiset(q[1..])[m] + if q[0] == m then 1 else 0
  {
    HeadTail(q);
  }

  lemma OneMoreOf(s: seq<nat>, x: nat, y: nat)
    ensures multiset(s + [x])[y] == multiset(s)[y] + if x == y then 1 else 0
  {
  }

  lemma KeepPlace(s: State, a: Action, id: nat)
    requires Enabled(s, a)
    ensures Places(Apply(s, a), id) == Places(s, id)
  {
    match a
    case MainAction => KeepPlaceMain(s, id);
    case WorkerAction(w, rc) => KeepPlaceWorker(s, w, rc, id);
    case Interrupt =>
  }

  lemma KeepSentinelsMain(s: State)
    requires SentinelsLast(s) && InOrder(s) && MainEnabled(s)
    ensures SentinelsLast(MainStep(s))
  {
    if MainPhase(s) == Dispatching {
      assert multiset(s.input)[Sentinel] == 0 && multiset(s.workers)[Stopped] == 0;
      assert Sentinel !in s.input && Stopped !in s.workers;
    }
  }

  lemma KeepSentinelsWorker(s: State, w: nat, rc: int)
    requires SentinelsLast(s) && w < |s.workers| && WorkerEnabled(s, w)
    ensures SentinelsLast(WorkerStep(s, w, rc))
  {
    var t := WorkerStep(s, w, rc);
    var was, now := s.workers[w], t.workers[w];
    assert t.workers == s.workers[w := now];
    assert multiset(t.workers)[Stopped] ==
           multiset(s.workers)[Stopped] - (if was == Stopped then 1 else 0) + if now == Stopped then 1 else 0;
    assert Stopped in t.workers ==> Stopped in s.workers || now == Stopped;
    if was == Waiting {
      HeadTail(s.input);
      TailSorted(s.input);
      assert s.input[0] in s.input;
      assert forall m :: m in t.input ==> m in s.input;
    } else {
      assert t.input == s.input && now != Stopped;
    }
  }

  lemma TailSorted(input: seq<Message>)
    requires input != []
    requires forall i, j :: 0 <= i < j < |input| && input[i] == Sentinel ==> input[j] == Sentinel
    ensures var rest := input[1..];
      && (forall i, j :: 0 <= i < j < |rest| && rest[i] == Sentinel ==> rest[j] == Sentinel)
      && (input[0] == Sentinel ==> forall m :: m in rest ==> m == Sentinel)
  {
  }

  lemma KeepCounts(s: State, a: Action)
    requires Inv(s) && Enabled(s, a)
    ensures var t := Apply(s, a);
            KnownJobs(t.jobs, t.collected) && t.counts == TallyAll(t.jobs, t.collected)
  {
    if a == MainAction {
      CollectedOne(s);
    } else {
      var t := Apply(s, a);
      forall i | 0 <= i < |s.collected|
        ensures s.collected[i] < |t.jobs| && t.jobs[s.collected[i]] == s.jobs[s.collected[i]]
      {
        assert s.collected[i] in s.collected;
        CollectedFrozen(s, a, s.collected[i]);
      }
      SameTally(s.jobs, t.jobs, s.collected);
      assert t.counts == s.counts && t.collected == s.collected;
    }
  }

  lemma CollectedOne(s: State)
    requires KnownJobs(s.jobs, s.collected) && s.counts == TallyAll(s.jobs, s.collected) && MainEnabled(s)
    ensures var t := MainStep(s);
            KnownJobs(t.jobs, t.collected) && t.counts == TallyAll(t.jobs, t.collected)
  {
    hide TallyAll, Tally;
    if MainPhase(s) == Collecting {
      TallyMore(s.jobs, s.collected, s.output[0]);
    }
  }

  lemma TallyMore(jobs: seq<Job>, ids: seq<nat>, id: nat)
    requires KnownJobs(jobs, ids) && id < |jobs|
    ensures KnownJobs(jobs, ids + [id]) && TallyAll(jobs, ids + [id]) == Tally(TallyAll(jobs, ids), jobs[id])
  {
    hide Tally;
    assert (ids + [id])[..|ids|] == ids;
  }

  /** A worker's step changes only the job that the worker holds, and a collected job is held by nobody. */
  lemma CollectedFrozen(s: State, a: Action, id: nat)
    requires Inv(s) && Enabled(s, a) && id in s.collected
    ensures id < |s.jobs| == |Apply(s, a).jobs| && Apply(s, a).jobs[id] == s.jobs[id]
  {
    Placed(s, id);
    PlaceOf(s, id);
    hide Inv, OnePlaceEach, SentinelsLast, JobsAgree, InOrder;
    if a.WorkerAction? {
      assert s.workers[a.w] in s.workers;
    }
  }

  lemma {:induction false} SameTally(jobs: seq<Job>, jobs': seq<Job>, ids: seq<nat>)
    requires |jobs| == |jobs'|
    requires forall i :: 0 <= i < |ids| ==> ids[i] < |jobs| && jobs[ids[i]] == jobs'[ids[i]]
    ensures TallyAll(jobs, ids) == TallyAll(jobs', ids)
  {
    if ids != [] {
      SameTally(jobs, jobs', ids[..|ids| - 1]);
    }
  }

  lemma KeepJobMain(s: State, id: nat)
    requires Inv(s) && MainEnabled(s) && id < |s.jobs|
    ensures JobAgrees(MainStep(s), id)
  {
    assert JobAgrees(s, id);
  }

  /** A step of a worker that does not hold job `id`, but may take it from the queue. */
  lemma KeepJobOther(s: State, w: nat, rc: int, id: nat)
    requires JobsAgree(s) && w < |s.workers| && WorkerEnabled(s, w) && id < |s.jobs|
    requires HeldByOne(s.workers[w], id) == 0
    ensures JobAgrees(WorkerStep(s, w, rc), id)
  {
    var t := WorkerStep(s, w, rc);
    assert JobAgrees(s, id);
    assert t.jobs[id] == s.jobs[id];
    assert forall other :: other in t.workers ==> other == t.workers[w] || other in s.workers;
    if s.workers[w] == Waiting {
      assert forall m :: m in t.input ==> m in s.input;
      assert s.input[0] in s.input;
    }
  }

  /** A step of the worker that holds job `id`: the job is nowhere else. */
  lemma KeepJobOwn(s: State, w: nat, rc: int, id: nat)
    requires JobsAgree(s) && w < |s.workers| && WorkerEnabled(s, w) && id < |s.jobs|
    requires HeldByOne(s.workers[w], id) == 1 && Places(s, id) == 1
    ensures JobAgrees(WorkerStep(s, w, rc), id)
  {
    var t := WorkerStep(s, w, rc);
    assert JobAgrees(s, id);
    KeepPlaceWorker(s, w, rc, id);
    assert s.workers[w] in s.workers && t.workers[w] in t.workers;
    assert multiset(s.workers)[s.workers[w]] >= 1 && multiset(t.workers)[t.workers[w]] >= 1;
    assert Work(id) !in t.input && id !in s.output && id !in s.collected && id < s.dispatched;
    if s.workers[w] != Returning(id) {
      assert HeldBy(t.workers, id) == 1;
      assert id !in t.output;
    } else {
      assert Holding(id) !in t.workers && Cleared(id) !in t.workers && Running(id) !in t.workers;
    }
  }

  lemma KeepJobWorker(s: State, w: nat, rc: int, id: nat)
    requires Inv(s) && w < |s.workers| && WorkerEnabled(s, w) && id < |s.jobs|
    ensures JobAgrees(WorkerStep(s, w, rc), id)
  {
    if HeldByOne(s.workers[w], id) == 0 {
      KeepJobOther(s, w, rc, id);
    } else {
      PlaceOf(s, id);
      KeepJobOwn(s, w, rc, id);
    }
  }

  lemma KeepJobs(s: State, a: Action)
    requires Inv(s) && Enabled(s, a)
    ensures JobsAgree(Apply(s, a))
  {
    forall id: nat | id < |s.jobs| ensures JobAgrees(Apply(s, a), id) {
      match a
      case MainAction => KeepJobMain(s, id);
      case WorkerAction(w, rc) => KeepJobWorker(s, w, rc, id);
      case Interrupt => assert JobAgrees(s, id);
    }
  }

  lemma InvStep(s: State, a: Action)
    requires Inv(s) && Enabled(s, a)
    ensures Inv(Apply(s, a))
  {
    KeepInOrder(s, a);
    KeepPlaces(s, a);
    match a {
      case MainAction => KeepSentinelsMain(s);
      case WorkerAction(w, rc) => KeepSentinelsWorker(s, w, rc);
      case Interrupt =>
    }
    KeepJobs(s, a);
    KeepCounts(s, a);
  }
}
