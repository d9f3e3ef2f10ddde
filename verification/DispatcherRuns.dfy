/** Runs of the dispatcher: they cannot get stuck, they end, and how they end. */
module DispatcherRuns {
  import opened Sequences
  import opened Dispatcher

  // ----- no deadlock -------------------------------------------------------

  lemma {:induction false} TwoCounts<T(!new)>(s: seq<T>, x: T, y: T)
    requires x != y
    ensures multiset(s)[x] + multiset(s)[y] <= |s|
  {
    if s != [] {
      HeadTail(s);
      TwoCounts(s[1..], x, y);
    }
  }

  lemma {:induction false} Below(n: nat) returns (ids: set<nat>)
    ensures forall id: nat :: id in ids <==> id < n
    ensures |ids| == n
  {
    if n == 0 {
      ids := {};
    } else {
      ids := Below(n - 1);
      ids := ids + {n - 1};
    }
  }

  lemma {:induction false} ItemsCard<T(!new)>(s: seq<T>)
    ensures |Items(s)| <= |s|
  {
    if s != [] {
      ItemsCard(s[1..]);
      assert Items(s) == Items(s[1..]) + {s[0]};
    }
  }

  lemma SomeMissing(ids: seq<nat>, n: nat) returns (id: nat)
    requires |ids| < n
    ensures id < n && id !in ids
  {
    var all := Below(n);
    ItemsCard(ids);
    if all <= Items(ids) {
      SubsetCard(all, Items(ids));
    }
    id :| id in all && id !in Items(ids);
  }

  lemma BusyEnabled(s: State, w: nat)
    requires Inv(s) && w < |s.workers| && s.workers[w] != Stopped
    requires s.workers[w] == Waiting ==> s.input != []
    ensures WorkerEnabled(s, w)
  {
    assert s.workers[w] in s.workers;
    match s.workers[w]
    case Waiting =>
    case Holding(id) => Placed(s, id);
    case Cleared(id) => Placed(s, id);
    case Running(id) => Placed(s, id);
    case Returning(id) =>
  }

  lemma WorkerForJob(s: State, id: nat) returns (w: nat)
    requires Inv(s) && |s.workers| > 0 && id < s.dispatched && id !in s.output && id !in s.collected
    ensures w < |s.workers| && WorkerEnabled(s, w)
  {
    PlaceOf(s, id);
    if HeldBy(s.workers, id) > 0 {
      assert Holding(id) in s.workers || Cleared(id) in s.workers || Running(id) in s.workers
          || Returning(id) in s.workers;
      w :| 0 <= w < |s.workers| && (s.workers[w] == Holding(id) || s.workers[w] == Cleared(id)
                                    || s.workers[w] == Running(id) || s.workers[w] == Returning(id));
    } else {
      assert Work(id) in s.input;
      assert Stopped !in s.workers;
      w := 0;
      assert s.workers[0] in s.workers;
    }
    BusyEnabled(s, w);
  }

  /** As long as main has not finished, some thread can move. */
  lemma NoDeadlock(s: State) returns (a: Action)
    requires Inv(s) && |s.workers| > 0 && MainPhase(s) != Finished
    ensures Enabled(s, a) && a != Interrupt
  {
    a := MainAction;
    match MainPhase(s)
    case Dispatching =>
    case Stopping =>
    case Collecting =>
      if s.output != [] {
        assert s.output[0] in s.output;
        Placed(s, s.output[0]);
      } else {
        var id := SomeMissing(s.collected, |s.jobs|);
        var w := WorkerForJob(s, id);
        a := WorkerAction(w, 0);
      }
    case Joining =>
      var w := s.joined;
      if s.workers[w] != Stopped {
        if s.workers[w] == Waiting {
          assert Waiting in s.workers;
          TwoCounts(s.workers, Stopped, Waiting);
          assert Sentinel in s.input;
        }
        BusyEnabled(s, w);
        a := WorkerAction(w, 0);
      }
  }

  // ----- every action brings the end nearer --------------------------------

  function MessageCost(m: Message): nat {
    if m.Work? then 6 else 1
  }

  function WorkerCost(w: Worker): nat {
    match w
    case Waiting => 0
    case Holding(_) => 5
    case Cleared(_) => 4
    case Running(_) => 3
    case Returning(_) => 2
    case Stopped => 0
  }

  function InputCost(input: seq<Message>): nat {
    if input == [] then 0 else MessageCost(input[0]) + InputCost(input[1..])
  }

  function WorkersCost(workers: seq<Worker>): nat {
    if workers == [] then 0 else WorkerCost(workers[0]) + WorkersCost(workers[1..])
  }

  function Remaining(s: State): int {
    7 * (|s.jobs| - s.dispatched) + InputCost(s.input) + WorkersCost(s.workers) + |s.output|
    + 2 * (|s.workers| - s.sentinels) + (|s.workers| - s.joined) + if s.threadExit then 0 else 1
  }

  lemma {:induction false} InputCostAppend(input: seq<Message>, m: Message)
    ensures InputCost(input + [m]) == InputCost(input) + MessageCost(m)
  {
    if input != [] {
      InputCostAppend(input[1..], m);
      assert (input + [m])[1..] == input[1..] + [m];
    }
  }

  lemma {:induction false} WorkersCostUpdate(workers: seq<Worker>, w: nat, x: Worker)
    requires w < |workers|
    ensures WorkersCost(workers[w := x]) == WorkersCost(workers) - WorkerCost(workers[w]) + WorkerCost(x)
  {
    if w > 0 {
      WorkersCostUpdate(workers[1..], w - 1, x);
      assert workers[w := x][1..] == workers[1..][w - 1 := x];
    }
  }

  lemma ProgressMain(s: State)
    requires InOrder(s) && MainEnabled(s)
    ensures Remaining(MainStep(s)) < Remaining(s)
  {
    InputCostAppend(s.input, Work(s.dispatched));
    InputCostAppend(s.input, Sentinel);
  }

  lemma ProgressWorker(s: State, w: nat, rc: int)
    requires w < |s.workers| && WorkerEnabled(s, w)
    ensures Remaining(WorkerStep(s, w, rc)) < Remaining(s)
  {
    var t := WorkerStep(s, w, rc);
    assert t.workers == s.workers[w := t.workers[w]];
    WorkersCostUpdate(s.workers, w, t.workers[w]);
    hide WorkersCost;
    if s.workers[w] == Waiting {
      assert InputCost(s.input) == MessageCost(s.input[0]) + InputCost(t.input);
    }
  }

  lemma Progress(s: State, a: Action)
    requires InOrder(s) && Enabled(s, a)
    ensures 0 <= Remaining(Apply(s, a)) < Remaining(s)
  {
    KeepInOrder(s, a);
    match a
    case MainAction => ProgressMain(s);
    case WorkerAction(w, rc) => ProgressWorker(s, w, rc);
    case Interrupt =>
  }

  // ----- the end -----------------------------------------------------------

  /** A job that does not spoil the exit status. */
  predicate Good(job: Job) {
    !job.isBreak && (job.isSkip || job.returncode == 0)
  }

  /** What `run_tests` returns. */
  function ExitStatus(s: State): int {
    if s.counts.passed + s.counts.skipped == s.dispatched then 0 else 1
  }

  function Total(c: Counts): nat {
    c.passed + c.skipped + c.failed + c.valgrind + c.crashed + c.interrupted
  }

  datatype Verdict = TurnedBack | Skipped | Passed | Failed | Valgrind | Crashed

  /** What the collecting loop is to say of a job. */
  predicate Earns(job: Job, v: Verdict) {
    match v
    case TurnedBack => job.isBreak
    case Skipped => !job.isBreak && job.isSkip
    case Passed => !job.isBreak && !job.isSkip && job.returncode == 0
    case Failed => !job.isBreak && !job.isSkip && job.returncode == 1
    case Valgrind => !job.isBreak && !job.isSkip && job.returncode == 2
    case Crashed => !job.isBreak && !job.isSkip && job.returncode !in {0, 1, 2}
  }

  function CounterOf(c: Counts, v: Verdict): nat {
    match v
    case TurnedBack => c.interrupted
    case Skipped => c.skipped
    case Passed => c.passed
    case Failed => c.failed
    case Valgrind => c.valgrind
    case Crashed => c.crashed
  }

  ghost predicate JobEarns(jobs: seq<Job>, id: nat, v: Verdict) {
    id < |jobs| && Earns(jobs[id], v)
  }

  ghost function JobsWith(jobs: seq<Job>, ids: seq<nat>, v: Verdict): set<nat> {
    set id | id in ids && JobEarns(jobs, id, v)
  }

  lemma TallyVerdict(c: Counts, job: Job, v: Verdict)
    ensures CounterOf(Tally(c, job), v) == CounterOf(c, v) + if Earns(job, v) then 1 else 0
  {
  }

  lemma JobsWithStep(jobs: seq<Job>, ids: seq<nat>, v: Verdict)
    requires ids != [] && Distinct(ids)
    ensures var n := |ids| - 1;
      |JobsWith(jobs, ids, v)| == |JobsWith(jobs, ids[..n], v)| + if JobEarns(jobs, ids[n], v) then 1 else 0
  {
    hide JobEarns, Distinct;
    var n := |ids| - 1;
    LastIsNew(ids);
    JobsWithLast(jobs, ids[..n], ids[n], v);
    assert ids == ids[..n] + [ids[n]];
    hide JobsWith;
  }

  lemma LastIsNew(ids: seq<nat>)
    requires ids != [] && Distinct(ids)
    ensures ids[|ids| - 1] !in ids[..|ids| - 1] && Distinct(ids[..|ids| - 1])
  {
  }

  lemma JobsWithLast(jobs: seq<Job>, front: seq<nat>, last: nat, v: Verdict)
    requires last !in front
    ensures |JobsWith(jobs, front + [last], v)| == |JobsWith(jobs, front, v)| + if JobEarns(jobs, last, v) then 1 else 0
  {
    hide JobEarns;
    assert JobsWith(jobs, front + [last], v)
        == JobsWith(jobs, front, v) + if JobEarns(jobs, last, v) then {last} else {};
  }

  /** Each counter is the number of the jobs that earn its verdict. */
  lemma {:induction false} TallyCounts(jobs: seq<Job>, ids: seq<nat>, v: Verdict)
    requires KnownJobs(jobs, ids) && Distinct(ids)
    ensures CounterOf(TallyAll(jobs, ids), v) == |JobsWith(jobs, ids, v)|
    decreases |ids|
  {
    if ids == [] {
      assert JobsWith(jobs, ids, v) == {};
    } else {
      hide JobsWith, TallyAll, Tally, Earns, CounterOf, Distinct;
      var n := |ids| - 1;
      LastIsNew(ids);
      TallyCounts(jobs, ids[..n], v);
      TallyAllStep(jobs, ids);
      TallyVerdict(TallyAll(jobs, ids[..n]), jobs[ids[n]], v);
      JobsWithStep(jobs, ids, v);
    }
  }

  ghost predicate AllGood(jobs: seq<Job>, ids: seq<nat>)
    requires KnownJobs(jobs, ids)
  {
    forall i :: 0 <= i < |ids| ==> Good(jobs[ids[i]])
  }

  lemma AllGoodAppend(jobs: seq<Job>, ids: seq<nat>)
    requires ids != [] && KnownJobs(jobs, ids)
    ensures AllGood(jobs, ids) <==> AllGood(jobs, ids[..|ids| - 1]) && Good(jobs[ids[|ids| - 1]])
  {
  }

  lemma TallyOne(c: Counts, job: Job)
    ensures var d := Tally(c, job);
      && Total(d) == Total(c) + 1
      && d.passed + d.skipped == c.passed + c.skipped + if Good(job) then 1 else 0
  {
  }

  lemma TallyAllStep(jobs: seq<Job>, ids: seq<nat>)
    requires ids != [] && KnownJobs(jobs, ids)
    ensures var n := |ids| - 1; TallyAll(jobs, ids) == Tally(TallyAll(jobs, ids[..n]), jobs[ids[n]])
  {
  }

  lemma NothingTallied(jobs: seq<Job>, ids: seq<nat>)
    requires ids == []
    ensures TallyAll(jobs, ids) == NO_COUNTS && Total(NO_COUNTS) == 0 && AllGood(jobs, ids)
  {
  }

  lemma {:induction false} TallyTotals(jobs: seq<Job>, ids: seq<nat>)
    requires KnownJobs(jobs, ids)
    ensures var c := TallyAll(jobs, ids);
      && Total(c) == |ids|
      && c.passed + c.skipped <= |ids|
      && (c.passed + c.skipped == |ids| <==> AllGood(jobs, ids))
  {
    hide AllGood, Tally, TallyAll, Total, Good;
    if ids == [] {
      NothingTallied(jobs, ids);
    } else {
      var n := |ids| - 1;
      TallyTotals(jobs, ids[..n]);
      TallyAllStep(jobs, ids);
      TallyOne(TallyAll(jobs, ids[..n]), jobs[ids[n]]);
      AllGoodAppend(jobs, ids);
    }
  }

  /** No job is collected twice. */
  lemma CollectedOnce(s: State)
    requires OnePlaceEach(s)
    ensures Distinct(s.collected)
  {
    forall i, j | 0 <= i < j < |s.collected| ensures s.collected[i] != s.collected[j] {
      if s.collected[i] == s.collected[j] {
        PlaceOf(s, s.collected[i]);
        Twice(s.collected, i, j);
      }
    }
  }

  /** Every job has come back, exactly once. */
  lemma AllCollected(s: State, id: nat)
    requires Inv(s) && |s.collected| == |s.jobs| && id < |s.jobs|
    ensures multiset(s.collected)[id] == 1 && id in s.collected && id < s.dispatched
  {
    var all := Below(|s.jobs|);
    CollectedOnce(s);
    DistinctCard(s.collected);
    assert Items(s.collected) <= all;
    SubsetCard(Items(s.collected), all);
    assert id in Items(s.collected);
    PlaceOf(s, id);
  }

  lemma Twice(s: seq<nat>, i: nat, j: nat)
    requires i < j < |s| && s[i] == s[j]
    ensures multiset(s)[s[i]] >= 2
  {
    assert s == s[..i] + [s[i]] + s[i + 1..j] + [s[j]] + s[j + 1..];
  }

  /** What holds once main has finished: nothing is left anywhere, every worker has stopped and took one
      sentinel, every job was counted once, and the status is 0 exactly when all jobs are good. */
  ghost predicate CleanEnd(s: State) {
    && s.input == [] && s.output == []
    && s.sentinels == |s.workers|
    && (forall w :: 0 <= w < |s.workers| ==> s.workers[w] == Stopped)
    && (forall id: nat :: id < |s.jobs| ==> multiset(s.collected)[id] == 1 && Settled(s, s.jobs[id]))
    && Total(s.counts) == |s.jobs|
    && (ExitStatus(s) == 0 <==> forall id: nat :: id < |s.jobs| ==> Good(s.jobs[id]))
  }

  lemma NothingLeft(s: State)
    requires Inv(s) && MainPhase(s) == Finished
    ensures s.input == [] && s.output == []
  {
    if s.output != [] {
      var id := s.output[0];
      assert id in s.output;
      Placed(s, id);
      AllCollected(s, id);
      PlaceOf(s, id);
    }
    if s.input != [] {
      assert s.input[0] in s.input;
      match s.input[0]
      case Work(id) =>
        Placed(s, id);
        AllCollected(s, id);
        PlaceOf(s, id);
      case Sentinel =>
        AllStopped(s.workers);
    }
  }

  lemma {:induction false} AllStopped(workers: seq<Worker>)
    requires forall w :: 0 <= w < |workers| ==> workers[w] == Stopped
    ensures multiset(workers)[Stopped] == |workers|
  {
    if workers != [] {
      HeadTail(workers);
      AllStopped(workers[1..]);
    }
  }

  lemma StatusMeaning(s: State)
    requires Inv(s) && MainPhase(s) == Finished
    ensures Total(s.counts) == |s.jobs|
    ensures ExitStatus(s) == 0 <==> forall id: nat :: id < |s.jobs| ==> Good(s.jobs[id])
  {
    hide OnePlaceEach, SentinelsLast, JobsAgree, TallyAll, Total;
    TallyTotals(s.jobs, s.collected);
    if AllGood(s.jobs, s.collected) {
      forall id: nat | id < |s.jobs| ensures Good(s.jobs[id]) {
        AllCollected(s, id);
        var i :| 0 <= i < |s.collected| && s.collected[i] == id;
      }
    }
  }

  lemma FinishedIsClean(s: State)
    requires Inv(s) && MainPhase(s) == Finished
    ensures CleanEnd(s)
  {
    hide OnePlaceEach, SentinelsLast, Good, ExitStatus, TallyAll;
    NothingLeft(s);
    StatusMeaning(s);
    forall id: nat | id < |s.jobs|
      ensures multiset(s.collected)[id] == 1 && Settled(s, s.jobs[id])
    {
      AllCollected(s, id);
      assert JobAgrees(s, id);
    }
  }

  ghost function AllWith(jobs: seq<Job>, v: Verdict): set<nat> {
    set id: nat | id < |jobs| && JobEarns(jobs, id, v)
  }

  /** At any time each counter is the number of collected jobs that earn its verdict. */
  lemma Counters(s: State, v: Verdict)
    requires Inv(s)
    ensures CounterOf(s.counts, v) == |JobsWith(s.jobs, s.collected, v)|
  {
    CollectedOnce(s);
    TallyCounts(s.jobs, s.collected, v);
  }

  lemma AllCounted(s: State)
    requires Inv(s) && MainPhase(s) == Finished
    ensures |s.collected| == |s.jobs| && KnownJobs(s.jobs, s.collected)
  {
  }

  /** In the end it is the number of all jobs that do. */
  lemma FinalCounters(s: State, v: Verdict)
    requires Inv(s) && MainPhase(s) == Finished
    ensures CounterOf(s.counts, v) == |AllWith(s.jobs, v)|
  {
    hide Inv, JobEarns, CounterOf;
    Counters(s, v);
    AllCounted(s);
    forall id: nat ensures id in JobsWith(s.jobs, s.collected, v) <==> id in AllWith(s.jobs, v) {
      if id < |s.jobs| {
        AllCollected(s, id);
      }
    }
    assert JobsWith(s.jobs, s.collected, v) == AllWith(s.jobs, v);
  }

  // ----- the codes of the processes ----------------------------------------

  /** The job's process was launched and has ended. */
  ghost predicate Ended(s: State, id: nat)
    requires id < |s.jobs|
  {
    s.jobs[id].ran && Running(id) !in s.workers
  }

  /** This step is the end of the job's process. */
  ghost predicate Ends(s: State, a: Action, id: nat) {
    a.WorkerAction? && a.w < |s.workers| && s.workers[a.w] == Running(id)
  }

  /** A process ends once, the job then has its code, and keeps it. */
  lemma CodeStep(s: State, a: Action, id: nat)
    requires Inv(s) && Enabled(s, a) && id < |s.jobs|
    ensures var t := Apply(s, a);
      && |t.jobs| == |s.jobs|
      && (Ends(s, a, id) ==> !Ended(s, id) && Ended(t, id) && t.jobs[id].returncode == a.rc)
      && (!Ends(s, a, id) ==>
            && (Ended(t, id) <==> Ended(s, id))
            && (Ended(s, id) ==> t.jobs[id].returncode == s.jobs[id].returncode))
  {
    assert JobAgrees(s, id);
    PlaceOf(s, id);
    if a.WorkerAction? {
      CodeWorker(s, a.w, a.rc, id);
    }
  }

  lemma CodeWorker(s: State, w: nat, rc: int, id: nat)
    requires w < |s.workers| && WorkerEnabled(s, w) && id < |s.jobs| && JobAgrees(s, id)
    requires multiset(s.workers)[Running(id)] <= 1
    ensures var t := WorkerStep(s, w, rc);
      && (s.workers[w] == Running(id) ==> !Ended(s, id) && Ended(t, id) && t.jobs[id].returncode == rc)
      && (s.workers[w] != Running(id) ==>
            && (Ended(t, id) <==> Ended(s, id))
            && (Ended(s, id) ==> t.jobs[id].returncode == s.jobs[id].returncode))
  {
    var t := WorkerStep(s, w, rc);
    assert t.workers == s.workers[w := t.workers[w]];
    OnlyOne(s.workers, w, t.workers[w], Running(id));
    assert s.workers[w] in s.workers;
  }

  lemma OnlyOne(workers: seq<Worker>, w: nat, worker: Worker, x: Worker)
    requires w < |workers| && multiset(workers)[x] <= 1
    ensures x in workers[w := worker] <==> worker == x || (x in workers && workers[w] != x)
  {
    CountUpdate(workers, w, worker, x);
    assert x in workers <==> multiset(workers)[x] > 0;
    assert x in workers[w := worker] <==> multiset(workers[w := worker])[x] > 0;
  }

  /** `codes` has the code of every process that has ended, and the jobs have the same. */
  ghost predicate CodesKept(s: State, codes: map<nat, int>) {
    && (forall id: nat :: id in codes <==> id < |s.jobs| && Ended(s, id))
    && (forall id: nat :: id in codes ==> s.jobs[id].returncode == codes[id])
  }

  /** The codes after a step; the end of a process adds the code that it returns. */
  ghost function CodesAfter(s: State, a: Action, codes: map<nat, int>): map<nat, int> {
    if a.WorkerAction? && a.w < |s.workers| && s.workers[a.w].Running? then codes[s.workers[a.w].id := a.rc] else codes
  }

  lemma CodesStep(s: State, a: Action, codes: map<nat, int>)
    requires Inv(s) && Enabled(s, a) && CodesKept(s, codes)
    ensures CodesKept(Apply(s, a), CodesAfter(s, a, codes))
  {
    var t := Apply(s, a);
    StepFrame(s, a);
    if a.WorkerAction? && s.workers[a.w].Running? {
      assert s.workers[a.w] in s.workers;
      Placed(s, s.workers[a.w].id);
    }
    hide Inv, Apply, Ended;
    var later := CodesAfter(s, a, codes);
    forall id: nat
      ensures id in later <==> id < |t.jobs| && Ended(t, id)
      ensures id in later ==> t.jobs[id].returncode == later[id]
    {
      if id < |s.jobs| {
        CodeStep(s, a, id);
      }
    }
  }

  // ----- whole executions --------------------------------------------------

  /** `states` are the states of a run of the actions `acts` from `start`. */
  ghost predicate Execution(start: State, acts: seq<Action>, states: seq<State>) {
    && |states| == |acts| + 1
    && states[0] == start
    && forall i :: 0 <= i < |acts| ==> Enabled(states[i], acts[i]) && states[i + 1] == Apply(states[i], acts[i])
  }

  lemma StepFrame(s: State, a: Action)
    requires Enabled(s, a)
    ensures var t := Apply(s, a);
      && |t.jobs| == |s.jobs| && |t.workers| == |s.workers|
      && (s.threadExit ==> t.threadExit)
      && forall id :: 0 <= id < |s.jobs| ==>
           t.jobs[id].isSkip == s.jobs[id].isSkip
  {
  }

  /** In every interleaving the invariant holds throughout, and the run is no longer than
      seven steps a job, three steps a worker and one interrupt. */
  lemma {:induction false} EveryExecution(skips: seq<bool>, processors: nat, acts: seq<Action>, states: seq<State>)
    requires Execution(Initial(skips, processors), acts, states)
    ensures var s := states[|acts|];
      && Inv(s)
      && |s.jobs| == |skips| && |s.workers| == processors
      && (forall id :: 0 <= id < |skips| ==> s.jobs[id].isSkip == skips[id])
      && |acts| + Remaining(s) <= 7 * |skips| + 3 * processors + 1
      && Remaining(s) >= 0
    decreases |acts|
  {
    if acts == [] {
      InvInitial(skips, processors);
      NoWorkersCost(processors);
    } else {
      var n := |acts| - 1;
      EveryExecution(skips, processors, acts[..n], states[..n + 1]);
      assert Enabled(states[n], acts[n]) && states[n + 1] == Apply(states[n], acts[n]);
      InvStep(states[n], acts[n]);
      StepFrame(states[n], acts[n]);
      Progress(states[n], acts[n]);
    }
  }

  lemma {:induction false} NoWorkersCost(n: nat)
    ensures WorkersCost(seq(n, _ => Waiting)) == 0
  {
    if n > 0 {
      NoWorkersCost(n - 1);
      assert seq(n, _ => Waiting)[1..] == seq(n - 1, _ => Waiting);
    }
  }

  ghost predicate EndsAt(acts: seq<Action>, states: seq<State>, i: nat, id: nat) {
    i < |acts| && i < |states| && Ends(states[i], acts[i], id)
  }

  /** The job's process has ended exactly once, with this code. */
  ghost predicate EndedOnce(acts: seq<Action>, states: seq<State>, id: nat, code: int) {
    exists i: nat :: EndsWith(acts, states, i, id, code) && OnlyEnd(acts, states, i, id)
  }

  ghost predicate EndsWith(acts: seq<Action>, states: seq<State>, i: nat, id: nat, code: int) {
    EndsAt(acts, states, i, id) && acts[i].rc == code
  }

  ghost predicate OnlyEnd(acts: seq<Action>, states: seq<State>, i: nat, id: nat) {
    forall j: nat :: EndsAt(acts, states, j, id) ==> j == i
  }

  ghost predicate NeverEnded(acts: seq<Action>, states: seq<State>, id: nat) {
    forall j: nat :: !EndsAt(acts, states, j, id)
  }

  /** What a job carries as its return code is the code with which its process ended, in every interleaving. */
  lemma {:induction false} RecordedCode(skips: seq<bool>, processors: nat, acts: seq<Action>, states: seq<State>,
                                        id: nat)
    requires Execution(Initial(skips, processors), acts, states) && id < |skips|
    ensures var s := states[|acts|];
      && |s.jobs| == |skips|
      && (Ended(s, id) ==> EndedOnce(acts, states, id, s.jobs[id].returncode))
      && (!Ended(s, id) ==> NeverEnded(acts, states, id))
    decreases |acts|
  {
    hide Inv, Apply, Ended, Ends;
    EveryExecution(skips, processors, acts, states);
    if acts == [] {
      NotStarted(skips, processors, id);
    } else {
      var n := |acts| - 1;
      RecordedCode(skips, processors, acts[..n], states[..n + 1], id);
      EveryExecution(skips, processors, acts[..n], states[..n + 1]);
      assert Enabled(states[n], acts[n]) && states[n + 1] == Apply(states[n], acts[n]);
      CodeStep(states[n], acts[n], id);
      EndsInFront(acts, states, id);
      if Ends(states[n], acts[n], id) {
        EndsHere(acts, states, id);
        assert EndsWith(acts, states, n, id, acts[n].rc) && OnlyEnd(acts, states, n, id);
      } else if Ended(states[n], id) {
        var code := states[n].jobs[id].returncode;
        var i: nat :| EndsWith(acts[..n], states[..n + 1], i, id, code) && OnlyEnd(acts[..n], states[..n + 1], i, id);
        assert EndsWith(acts, states, i, id, code) && OnlyEnd(acts, states, i, id);
      }
    }
  }

  lemma NotStarted(skips: seq<bool>, processors: nat, id: nat)
    requires id < |skips|
    ensures !Ended(Initial(skips, processors), id)
  {
  }

  lemma EndsHere(acts: seq<Action>, states: seq<State>, id: nat)
    requires acts != [] && |states| == |acts| + 1 && Ends(states[|acts| - 1], acts[|acts| - 1], id)
    ensures acts[|acts| - 1].WorkerAction?
    ensures EndsWith(acts, states, |acts| - 1, id, acts[|acts| - 1].rc)
  {
  }

  lemma EndsInFront(acts: seq<Action>, states: seq<State>, id: nat)
    requires acts != [] && |states| == |acts| + 1
    ensures var n := |acts| - 1;
      forall i: nat :: EndsAt(acts, states, i, id) <==>
        EndsAt(acts[..n], states[..n + 1], i, id) || (i == n && Ends(states[n], acts[n], id))
  {
    hide Ends;
  }

  /** Every process in the run has ended with code 0. */
  ghost predicate AllEndWithZero(acts: seq<Action>, states: seq<State>) {
    forall i: nat, id: nat, code :: EndsWith(acts, states, i, id, code) ==> code == 0
  }

  /** A finished run: each job that was run has the code of its one process, no other job had a process, and the
      status is 0 exactly when no job was turned back and every process ended with code 0. */
  lemma ProcessCodes(skips: seq<bool>, processors: nat, acts: seq<Action>, states: seq<State>)
    requires Execution(Initial(skips, processors), acts, states) && MainPhase(states[|acts|]) == Finished
    ensures var s := states[|acts|];
      && |s.jobs| == |skips|
      && (forall id: nat :: id < |skips| && s.jobs[id].ran ==> EndedOnce(acts, states, id, s.jobs[id].returncode))
      && (forall id: nat :: id < |skips| && !s.jobs[id].ran ==> NeverEnded(acts, states, id))
      && (ExitStatus(s) == 0 <==>
            (forall id: nat :: id < |skips| ==> !s.jobs[id].isBreak) && AllEndWithZero(acts, states))
      && (!s.threadExit ==> (ExitStatus(s) == 0 <==> AllEndWithZero(acts, states)))
  {
    var s := states[|acts|];
    EveryExecution(skips, processors, acts, states);
    FinishedIsClean(s);
    hide Inv, Execution, ExitStatus, AllEndWithZero, EndedOnce, NeverEnded, EndsAt;
    forall id: nat | id < |skips|
      ensures s.jobs[id].ran ==> EndedOnce(acts, states, id, s.jobs[id].returncode)
      ensures !s.jobs[id].ran ==> NeverEnded(acts, states, id)
    {
      RecordedCode(skips, processors, acts, states, id);
    }
    forall i: nat, id: nat, code | EndsWith(acts, states, i, id, code) ensures id < |skips| {
      EndsKnown(skips, processors, acts, states, i, id);
    }
    GoodByCodes(acts, states, s);
  }

  lemma GoodByCodes(acts: seq<Action>, states: seq<State>, s: State)
    requires forall id: nat :: id < |s.jobs| && s.jobs[id].ran ==> EndedOnce(acts, states, id, s.jobs[id].returncode)
    requires forall id: nat :: id < |s.jobs| && !s.jobs[id].ran ==> NeverEnded(acts, states, id)
    requires forall i: nat, id: nat, code :: EndsWith(acts, states, i, id, code) ==> id < |s.jobs|
    requires forall id: nat :: id < |s.jobs| ==> Settled(s, s.jobs[id])
    ensures (forall id: nat :: id < |s.jobs| ==> Good(s.jobs[id])) <==>
      (forall id: nat :: id < |s.jobs| ==> !s.jobs[id].isBreak) && AllEndWithZero(acts, states)
  {
    hide EndsWith, OnlyEnd, NeverEnded;
    if forall id: nat :: id < |s.jobs| ==> Good(s.jobs[id]) {
      forall i: nat, id: nat, code | EndsWith(acts, states, i, id, code) ensures code == 0 {
        CodeOfEnd(acts, states, i, id, code, s.jobs[id].returncode);
      }
    }
    if (forall id: nat :: id < |s.jobs| ==> !s.jobs[id].isBreak) && AllEndWithZero(acts, states) {
      forall id: nat | id < |s.jobs| ensures Good(s.jobs[id]) {
        if s.jobs[id].ran {
          var i: nat :| EndsWith(acts, states, i, id, s.jobs[id].returncode) && OnlyEnd(acts, states, i, id);
        }
      }
    }
  }

  lemma CodeOfEnd(acts: seq<Action>, states: seq<State>, i: nat, id: nat, code: int, recorded: int)
    requires EndsWith(acts, states, i, id, code)
    ensures !NeverEnded(acts, states, id)
    ensures EndedOnce(acts, states, id, recorded) ==> recorded == code
  {
  }

  lemma EndsKnown(skips: seq<bool>, processors: nat, acts: seq<Action>, states: seq<State>, i: nat, id: nat)
    requires Execution(Initial(skips, processors), acts, states) && EndsAt(acts, states, i, id)
    ensures id < |skips|
  {
    EveryExecution(skips, processors, acts[..i], states[..i + 1]);
    var s := states[i];
    assert s.workers[acts[i].w] in s.workers;
    Placed(s, id);
  }

  /** An execution that no thread can continue has come to a clean end. */
  lemma MaximalExecution(skips: seq<bool>, processors: nat, acts: seq<Action>, states: seq<State>)
    requires processors >= 1
    requires Execution(Initial(skips, processors), acts, states)
    requires forall a :: Enabled(states[|acts|], a) ==> a == Interrupt
    ensures MainPhase(states[|acts|]) == Finished && CleanEnd(states[|acts|])
  {
    EveryExecution(skips, processors, acts, states);
    var s := states[|acts|];
    if MainPhase(s) != Finished {
      var a := NoDeadlock(s);
    }
    FinishedIsClean(s);
  }

  /** No sentinel is taken while a job still waits to be dispatched or stands in the input queue. */
  lemma SentinelTaken(s: State, w: nat, rc: int)
    requires Inv(s) && w < |s.workers| && WorkerEnabled(s, w)
    requires s.workers[w] != Stopped && WorkerStep(s, w, rc).workers[w] == Stopped
    ensures s.dispatched == |s.jobs| && forall id :: Work(id) !in s.input
  {
  }

  /** The threads at work under an arbitrary scheduler. */
  method RunTests(skips: seq<bool>, processors: nat)
    returns (status: int, jobs: seq<Job>, counts: Counts, ghost codes: map<nat, int>)
    requires processors >= 1
    ensures |jobs| == |skips| && forall id :: 0 <= id < |jobs| ==> jobs[id].isSkip == skips[id]
    ensures status == 0 || status == 1
    ensures status == 0 <==> forall id :: 0 <= id < |jobs| ==> Good(jobs[id])
    ensures Total(counts) == |jobs|
    ensures forall id :: 0 <= id < |jobs| ==> jobs[id].ran == (!jobs[id].isBreak && !jobs[id].isSkip)
    ensures forall id: nat :: id in codes <==> id < |jobs| && jobs[id].ran
    ensures forall id: nat :: id in codes ==> jobs[id].returncode == codes[id]
    ensures status == 0 <==>
      (forall id :: 0 <= id < |jobs| ==> !jobs[id].isBreak) && forall id: nat :: id in codes ==> codes[id] == 0
    ensures forall v :: CounterOf(counts, v) == |AllWith(jobs, v)|
  {
    var s := Initial(skips, processors);
    codes := map[];
    InvInitial(skips, processors);
    assert CodesKept(s, codes);
    while MainPhase(s) != Finished
      invariant Inv(s)
      invariant |s.jobs| == |skips| && |s.workers| == processors
      invariant forall id :: 0 <= id < |skips| ==> s.jobs[id].isSkip == skips[id]
      invariant CodesKept(s, codes)
      decreases Remaining(s)
    {
      hide Inv, Remaining, Apply, CodesKept;
      ghost var possible := NoDeadlock(s);
      var a: Action;
      if {
        case MainEnabled(s) =>
          a := MainAction;
        case exists w: nat | w < |s.workers| :: WorkerEnabled(s, w) =>
          var w: nat :| w < |s.workers| && WorkerEnabled(s, w);
          var rc: int := *;
          a := WorkerAction(w, rc);
        case !s.threadExit =>
          a := Interrupt;
      }
      InvStep(s, a);
      InvOrder(s);
      Progress(s, a);
      StepFrame(s, a);
      CodesStep(s, a, codes);
      codes := CodesAfter(s, a, codes);
      s := Apply(s, a);
    }
    FinishedIsClean(s);
    forall v ensures CounterOf(s.counts, v) == |AllWith(s.jobs, v)| {
      FinalCounters(s, v);
    }
    status, jobs, counts := ExitStatus(s), s.jobs, s.counts;
  }

  lemma InvOrder(s: State)
    requires Inv(s)
    ensures InOrder(s)
  {
  }
}
