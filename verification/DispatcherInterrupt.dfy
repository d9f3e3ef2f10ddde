/** Runs of the dispatcher with an interrupt, which can come at any moment, and without one. */
module DispatcherInterrupt {
  import opened Sequences
  import opened Dispatcher
  import opened DispatcherRuns

  // ----- after the interrupt -----------------------------------------------------

  /** The job has been launched, or a worker has cleared it for launch. */
  ghost predicate Committed(s: State, id: nat)
    requires id < |s.jobs|
  {
    s.jobs[id].ran || Cleared(id) in s.workers
  }

  /** The job has not come to a worker's check yet. */
  ghost predicate Unchecked(s: State, id: nat) {
    id >= s.dispatched || Work(id) in s.input || Holding(id) in s.workers
  }

  /** A check that sees the interrupt sends the job back unrun. From the interrupt on no job is cleared, so a
      launch can only be that of a job cleared before, by the worker that has cleared it. */
  lemma AfterInterrupt(s: State, a: Action, id: nat)
    requires Inv(s) && Enabled(s, a) && s.threadExit && id < |s.jobs|
    ensures a.WorkerAction? && s.workers[a.w] == Holding(id) ==>
              var t := Apply(s, a);
              t.workers[a.w] == Returning(id) && t.jobs[id].isBreak && !t.jobs[id].ran
    ensures Apply(s, a).jobs[id].ran != s.jobs[id].ran ==> a.WorkerAction? && s.workers[a.w] == Cleared(id)
    ensures forall w :: 0 <= w < |s.workers| && Apply(s, a).workers[w].Cleared? ==>
              s.workers[w] == Apply(s, a).workers[w]
  {
    assert JobAgrees(s, id);
    if a.WorkerAction? {
      assert s.workers[a.w] in s.workers;
    }
  }

  /** With the flag set, no step changes which jobs are launched sooner or later, or turned back sooner or later. */
  lemma InterruptedStep(s: State, a: Action, id: nat)
    requires Enabled(s, a) && s.threadExit && id < |s.jobs|
    ensures var t := Apply(s, a);
      && |t.jobs| == |s.jobs|
      && (Committed(t, id) <==> Committed(s, id))
      && (t.jobs[id].isBreak || Unchecked(t, id) <==> s.jobs[id].isBreak || Unchecked(s, id))
  {
    match a
    case MainAction =>
    case WorkerAction(w, rc) => InterruptedWorker(s, w, rc, id);
    case Interrupt =>
  }

  lemma InterruptedWorker(s: State, w: nat, rc: int, id: nat)
    requires w < |s.workers| && WorkerEnabled(s, w) && s.threadExit && id < |s.jobs|
    ensures var t := WorkerStep(s, w, rc);
      && (Committed(t, id) <==> Committed(s, id))
      && (t.jobs[id].isBreak || Unchecked(t, id) <==> s.jobs[id].isBreak || Unchecked(s, id))
  {
    var t := WorkerStep(s, w, rc);
    assert forall v :: 0 <= v < |s.workers| && v != w ==> t.workers[v] == s.workers[v];
    assert s.workers[w] in s.workers && t.workers[w] in t.workers;
    assert forall x :: x in t.workers ==> x == t.workers[w] || x in s.workers;
    assert forall x :: x in s.workers ==> x == s.workers[w] || x in t.workers;
    if s.workers[w] == Waiting {
      assert s.input == [s.input[0]] + t.input;
    }
  }

  /** The rest of a run after the interrupt: the jobs that are or will be launched, and those that are or will be
      turned back, are settled by the state in which the interrupt comes. */
  lemma {:induction false} InterruptedRun(s: State, acts: seq<Action>, states: seq<State>)
    requires Inv(s) && s.threadExit && Execution(s, acts, states)
    ensures var t := states[|acts|];
      && Inv(t) && t.threadExit && |t.jobs| == |s.jobs| && |t.workers| == |s.workers|
      && forall id :: 0 <= id < |s.jobs| ==>
           && (Committed(t, id) <==> Committed(s, id))
           && (t.jobs[id].isBreak || Unchecked(t, id) <==> s.jobs[id].isBreak || Unchecked(s, id))
    decreases |acts|
  {
    hide Inv, Committed, Unchecked;
    if acts != [] {
      var n := |acts| - 1;
      InterruptedRun(s, acts[..n], states[..n + 1]);
      assert Enabled(states[n], acts[n]) && states[n + 1] == Apply(states[n], acts[n]);
      InvStep(states[n], acts[n]);
      StepFrame(states[n], acts[n]);
      forall id | 0 <= id < |s.jobs|
        ensures Committed(states[n + 1], id) <==> Committed(states[n], id)
        ensures states[n + 1].jobs[id].isBreak || Unchecked(states[n + 1], id)
           <==> states[n].jobs[id].isBreak || Unchecked(states[n], id)
      {
        InterruptedStep(states[n], acts[n], id);
      }
    }
  }

  /** At the end of a run with an interrupt: exactly those jobs were run that had been launched or cleared when it
      came, and exactly those were turned back that no worker had checked. */
  lemma InterruptedEnd(s: State, acts: seq<Action>, states: seq<State>, id: nat)
    requires Inv(s) && s.threadExit && Execution(s, acts, states) && id < |s.jobs|
    requires MainPhase(states[|acts|]) == Finished
    ensures var t := states[|acts|];
      && |t.jobs| == |s.jobs|
      && (t.jobs[id].ran <==> s.jobs[id].ran || Cleared(id) in s.workers)
      && (t.jobs[id].isBreak <==> s.jobs[id].isBreak || Unchecked(s, id))
  {
    InterruptedRun(s, acts, states);
    FinishedIsClean(states[|acts|]);
  }

  ghost function ClearedIds(workers: seq<Worker>): set<nat> {
    set worker | worker in workers && worker.Cleared? :: worker.id
  }

  lemma {:induction false} ClearedCard(workers: seq<Worker>)
    ensures |ClearedIds(workers)| <= |workers|
  {
    if workers != [] {
      ClearedCard(workers[1..]);
      assert workers == [workers[0]] + workers[1..];
      assert ClearedIds(workers) ==
        ClearedIds(workers[1..]) + if workers[0].Cleared? then {workers[0].id} else {};
    }
  }

  /** The jobs launched between two states of a run. */
  ghost function LaunchedBetween(s: State, t: State): set<nat>
    requires |t.jobs| == |s.jobs|
  {
    set id: nat | id < |s.jobs| && t.jobs[id].ran && !s.jobs[id].ran
  }

  /** After the interrupt at most one job a worker is launched. */
  lemma LateLaunches(s: State, acts: seq<Action>, states: seq<State>)
    requires Inv(s) && s.threadExit && Execution(s, acts, states)
    ensures |states[|acts|].jobs| == |s.jobs|
    ensures |LaunchedBetween(s, states[|acts|])| <= |s.workers|
  {
    InterruptedRun(s, acts, states);
    var t := states[|acts|];
    var late := LaunchedBetween(s, t);
    forall id | id in late ensures id in ClearedIds(s.workers) {
      assert Committed(t, id);
      assert Cleared(id) in s.workers;
    }
    ClearedCard(s.workers);
    SubsetCard(late, ClearedIds(s.workers));
  }

  /** It does happen: the interrupt comes between the check of a job and its launch. */
  lemma LateLaunchExample() returns (acts: seq<Action>, states: seq<State>)
    ensures Execution(Initial([false], 1), acts, states) && |acts| == 5 && acts[3] == Interrupt
    ensures |states[4].jobs| == |states[5].jobs| == 1
    ensures states[4].threadExit && !states[4].jobs[0].ran && states[5].jobs[0].ran
  {
    acts := [MainAction, WorkerAction(0, 0), WorkerAction(0, 0), Interrupt, WorkerAction(0, 0)];
    var s0 := Initial([false], 1);
    var s1 := MainStep(s0);
    var s2 := WorkerStep(s1, 0, 0);
    var s3 := WorkerStep(s2, 0, 0);
    var s4 := s3.(threadExit := true);
    var s5 := WorkerStep(s4, 0, 0);
    states := [s0, s1, s2, s3, s4, s5];
  }

  /** Without an interrupt no job is turned back, so the status speaks of return codes only. */
  lemma WithoutInterrupt(s: State)
    requires Inv(s) && MainPhase(s) == Finished && !s.threadExit
    ensures forall id: nat :: id < |s.jobs| ==> s.jobs[id].ran != s.jobs[id].isSkip
    ensures ExitStatus(s) == 0 <==> forall id: nat :: id < |s.jobs| && s.jobs[id].ran ==> s.jobs[id].returncode == 0
  {
    FinishedIsClean(s);
    forall id: nat | id < |s.jobs| ensures s.jobs[id].ran != s.jobs[id].isSkip && !s.jobs[id].isBreak {
      assert Settled(s, s.jobs[id]);
    }
  }
}
