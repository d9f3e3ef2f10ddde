/** The queues of the dispatcher are first in, first out: jobs are taken in the order in which they were dispatched,
    and collected in the order in which they were put back. */
module DispatcherOrder {
  import opened Dispatcher
  import opened DispatcherRuns

  /** Jobs stand in the input queue in the order of their dispatch. */
  ghost predicate InputInOrder(s: State) {
    && (forall i :: 0 <= i < |s.input| && s.input[i].Work? ==> s.input[i].id < s.dispatched)
    && (forall i, j :: 0 <= i < j < |s.input| && s.input[i].Work? && s.input[j].Work? ==> s.input[i].id < s.input[j].id)
  }

  lemma InputStep(s: State, a: Action)
    requires InputInOrder(s) && Enabled(s, a)
    ensures InputInOrder(Apply(s, a))
  {
    match a
    case MainAction => InputMain(s);
    case WorkerAction(w, rc) =>
      var t := WorkerStep(s, w, rc);
      assert t.dispatched == s.dispatched;
      if s.workers[w] == Waiting {
        assert forall i :: 0 <= i < |t.input| ==> t.input[i] == s.input[i + 1];
      } else {
        assert t.input == s.input;
      }
    case Interrupt =>
  }

  lemma InputMain(s: State)
    requires InputInOrder(s) && MainEnabled(s)
    ensures InputInOrder(MainStep(s))
  {
  }

  /** The next step of the worker takes this job from the input queue. */
  ghost predicate Takes(s: State, w: nat, id: nat) {
    && w < |s.workers| && s.workers[w] == Waiting && WorkerEnabled(s, w)
    && WorkerStep(s, w, 0).workers[w] == Holding(id)
  }

  /** A worker that takes a job takes the one dispatched first of those that nobody has taken. */
  lemma {:induction false} TakenInOrder(skips: seq<bool>, processors: nat, acts: seq<Action>, states: seq<State>)
    requires Execution(Initial(skips, processors), acts, states)
    ensures InputInOrder(states[|acts|])
    ensures forall w, id, other :: Takes(states[|acts|], w, id) && Work(other) in states[|acts|].input ==> id <= other
    decreases |acts|
  {
    if acts != [] {
      var n := |acts| - 1;
      TakenInOrder(skips, processors, acts[..n], states[..n + 1]);
      assert Enabled(states[n], acts[n]) && states[n + 1] == Apply(states[n], acts[n]);
      InputStep(states[n], acts[n]);
    }
    var s := states[|acts|];
    forall w, id, other | Takes(s, w, id) && Work(other) in s.input ensures id <= other {
      assert s.input[0] == Work(id);
      var i :| 0 <= i < |s.input| && s.input[i] == Work(other);
    }
  }

  /** The jobs that the workers have put back, in order. */
  ghost function PutBack(acts: seq<Action>, states: seq<State>): seq<nat>
    requires |states| == |acts| + 1
  {
    if acts == [] then []
    else
      var n := |acts| - 1;
      PutBack(acts[..n], states[..n + 1]) +
      if acts[n].WorkerAction? && acts[n].w < |states[n].workers| && states[n].workers[acts[n].w].Returning?
      then [states[n].workers[acts[n].w].id] else []
  }

  lemma OutputStep(s: State, a: Action)
    requires Enabled(s, a)
    ensures var t := Apply(s, a);
      t.collected + t.output == s.collected + s.output +
        if a.WorkerAction? && s.workers[a.w].Returning? then [s.workers[a.w].id] else []
  {
    if a == MainAction && MainPhase(s) == Collecting {
      assert s.output == [s.output[0]] + s.output[1..];
    }
  }

  /** What main has collected, and what still waits for it, is what the workers have put back, in that order. */
  lemma {:induction false} CollectedInOrder(skips: seq<bool>, processors: nat, acts: seq<Action>, states: seq<State>)
    requires Execution(Initial(skips, processors), acts, states)
    ensures states[|acts|].collected + states[|acts|].output == PutBack(acts, states)
    decreases |acts|
  {
    hide Apply, Enabled;
    if acts != [] {
      var n := |acts| - 1;
      CollectedInOrder(skips, processors, acts[..n], states[..n + 1]);
      assert Enabled(states[n], acts[n]) && states[n + 1] == Apply(states[n], acts[n]);
      OutputStep(states[n], acts[n]);
      EnabledWorker(states[n], acts[n]);
    }
  }

  lemma EnabledWorker(s: State, a: Action)
    requires Enabled(s, a)
    ensures a.WorkerAction? ==> a.w < |s.workers|
  {
  }
}
