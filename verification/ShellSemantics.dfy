/** What running a pipeline does: the flat list as `run` of waf-tools/shellcmd.py consumes it, and the
    and-or list of piped groups that it stands for. */
module ShellSemantics {
  import opened Results
  import opened ShellSyntax

  datatype Input = Inherited | FromFile(name: string) | FromProcess(index: nat)

  /** One subprocess that was started. */
  datatype Spawn = Spawn(
    argv: seq<string>,
    stdin: Input,
    stdout: Redirect,
    stderr: Redirect,
    envVars: map<string, string>,
    cwd: Option<string>)

  type Log = seq<Spawn>

  /** The exit code of the n-th process, given all that was started when it is waited for. */
  type World = (Log, nat) -> int

  datatype RunError = PopFromEmptyList | JoinWithNone | NodeAssertion

  /** `Ok(None)` is `run` falling off its loop. */
  datatype Outcome = Outcome(result: Result<Option<int>, RunError>, log: Log)

  /** `os.path.join` of two components. */
  function JoinPath(a: string, b: string): string {
    if b != "" && b[0] == '/' then b
    else if a == "" || a[|a| - 1] == '/' then a + b
    else a + "/" + b
  }

  function StdinOf(c: Command): Input {
    if c.stdin.Some? then FromFile(c.stdin.value) else Inherited
  }

  function SpawnOf(c: Command, stdin: Input, cwd: string): Spawn {
    Spawn(c.argv, stdin, c.stdout, c.stderr, c.envVars, if cwd == "." then None else Some(cwd))
  }

  /** `_exec_piped_commands`: wait for all; 0 if all are 0, else the last code. */
  function ExitCodes(piped: seq<nat>, log: Log, world: World): seq<int> {
    seq(|piped|, i requires 0 <= i < |piped| => world(log, piped[i]))
  }

  function GroupCode(codes: seq<int>): int {
    if codes != [] && exists i :: 0 <= i < |codes| && codes[i] != 0 then codes[|codes| - 1] else 0
  }

  /** The exit code of a group is that of its last process, whatever the others return. */
  lemma GroupCodeIsLast(codes: seq<int>)
    requires codes != []
    ensures GroupCode(codes) == codes[|codes| - 1]
  {
  }

  // ----- the flat reading ----------------------------------------------------

  /** A command piped from the process before it reads that process's output, if it kept a pipe. */
  function PipedInput(piped: seq<nat>, log: Log): Input
    requires piped != [] && piped[|piped| - 1] < |log|
  {
    if log[piped[|piped| - 1]].stdout == ToPipe then FromProcess(piped[|piped| - 1]) else Inherited
  }

  ghost predicate Known(piped: seq<nat>, log: Log) {
    forall i :: 0 <= i < |piped| ==> piped[i] < |log|
  }

  ghost function Eval(nodes: seq<Node>, piping: bool, cwd: string, piped: seq<nat>, log: Log, world: World): Outcome
    requires Known(piped, log) && (piping ==> piped != [])
    decreases |nodes|
  {
    if nodes == [] then Outcome(Ok(None), log)
    else if nodes[0].Chdir? then
      if |nodes| == 1 then Outcome(Err(PopFromEmptyList), log)
      else if nodes[1] != And then Outcome(Err(NodeAssertion), log)
      else if nodes[0].dir == None then Outcome(Err(JoinWithNone), log)
      else Eval(nodes[2..], piping, JoinPath(cwd, nodes[0].dir.value), piped, log, world)
    else if !nodes[0].Run? then Outcome(Err(NodeAssertion), log)
    else
      var c := nodes[0].command;
      var stdin := if piping then PipedInput(piped, log) else StdinOf(c);
      var log' := log + [SpawnOf(c, stdin, cwd)];
      var piped' := piped + [|log|];
      var code := GroupCode(ExitCodes(piped', log', world));
      if |nodes| == 1 then Outcome(Ok(Some(code)), log')
      else if nodes[1] == Pipe then Eval(nodes[2..], true, cwd, piped', log', world)
      else if nodes[1] == Or then
        if code == 0 then Outcome(Ok(Some(code)), log') else Eval(nodes[2..], false, cwd, [], log', world)
      else if nodes[1] == And then
        if code != 0 then Outcome(Ok(Some(code)), log') else Eval(nodes[2..], false, cwd, [], log', world)
      else Eval(nodes[2..], piping, cwd, piped', log', world)
  }

  ghost function EvalPipeline(pipeline: seq<Node>, world: World): Outcome {
    Eval(pipeline, false, ".", [], [], world)
  }

  // ----- the structured reading ------------------------------------------------

  /** A command with the directory changes in front of it. */
  datatype Stage = Stage(dirs: seq<string>, command: Command)

  /** Stages joined by pipes. */
  type Group = seq<Stage>

  datatype Connective = AndThen | OrElse

  /** Groups joined by `&&` and `||`. */
  datatype AndOrList = AndOrList(first: Group, rest: seq<(Connective, Group)>)

  ghost predicate ValidGroup(g: Group) {
    && g != []
    && forall i :: 0 <= i < |g| ==> (g[i].command.stdout == ToPipe <==> i + 1 < |g|)
  }

  ghost predicate ValidList(l: AndOrList) {
    ValidGroup(l.first) && forall i :: 0 <= i < |l.rest| ==> ValidGroup(l.rest[i].1)
  }

  function FlattenDirs(dirs: seq<string>): seq<Node> {
    if dirs == [] then [] else [Chdir(Some(dirs[0])), And] + FlattenDirs(dirs[1..])
  }

  function FlattenGroup(g: Group): seq<Node> {
    if g == [] then []
    else FlattenDirs(g[0].dirs) + [Run(g[0].command)] + if |g| == 1 then [] else [Pipe] + FlattenGroup(g[1..])
  }

  function OpOf(c: Connective): Node {
    if c == AndThen then And else Or
  }

  function Flatten(first: Group, rest: seq<(Connective, Group)>): seq<Node>
    decreases |rest|
  {
    FlattenGroup(first) + if rest == [] then [] else [OpOf(rest[0].0)] + Flatten(rest[0].1, rest[1..])
  }

  /** Where a list has got to: the exit code of the last group run, the directory, what was started. */
  datatype Progress = Progress(code: int, cwd: string, log: Log)

  function JoinDirs(cwd: string, dirs: seq<string>): string
    decreases |dirs|
  {
    if dirs == [] then cwd else JoinDirs(JoinPath(cwd, dirs[0]), dirs[1..])
  }

  /** Start the stages of a group, each reading from the one before it. */
  function StartStages(g: Group, before: Option<nat>, cwd: string, log: Log): (string, Log) {
    if g == [] then (cwd, log)
    else
      var cwd' := JoinDirs(cwd, g[0].dirs);
      var stdin := if before.Some? then FromProcess(before.value) else StdinOf(g[0].command);
      StartStages(g[1..], Some(|log|), cwd', log + [SpawnOf(g[0].command, stdin, cwd')])
  }

  function RunGroup(g: Group, at: Progress, world: World): Progress {
    var (cwd, log) := StartStages(g, None, at.cwd, at.log);
    Progress(if log == [] then 0 else world(log, |log| - 1), cwd, log)
  }

  predicate Proceeds(c: Connective, code: int) {
    if c == AndThen then code == 0 else code != 0
  }

  /** Right-nested short-circuiting: `g && (rest)`, `g || (rest)`. */
  function RightNested(g: Group, rest: seq<(Connective, Group)>, at: Progress, world: World): Progress
    decreases |rest|
  {
    var done := RunGroup(g, at, world);
    if rest == [] || !Proceeds(rest[0].0, done.code) then done
    else RightNested(rest[0].1, rest[1..], done, world)
  }

  const AT_START := Progress(0, ".", [])

  // ----- the flat reading is the right-nested one --------------------------------

  lemma {:induction false} EvalDirs(dirs: seq<string>, tail: seq<Node>, piping: bool, cwd: string,
                                    piped: seq<nat>, log: Log, world: World)
    requires Known(piped, log) && (piping ==> piped != [])
    ensures Eval(FlattenDirs(dirs) + tail, piping, cwd, piped, log, world)
         == Eval(tail, piping, JoinDirs(cwd, dirs), piped, log, world)
    decreases |dirs|
  {
    var nodes := FlattenDirs(dirs) + tail;
    if dirs == [] {
      assert nodes == tail;
    } else {
      assert nodes[2..] == FlattenDirs(dirs[1..]) + tail;
      EvalDirs(dirs[1..], tail, piping, JoinPath(cwd, dirs[0]), piped, log, world);
    }
  }

  /** What `run` does with the rest of the list after a group. */
  ghost function AfterGroup(done: Progress, tail: seq<Node>, world: World): Outcome {
    if tail == [] then Outcome(Ok(Some(done.code)), done.log)
    else if tail[0] == And then
      if done.code != 0 then Outcome(Ok(Some(done.code)), done.log)
      else Eval(tail[1..], false, done.cwd, [], done.log, world)
    else
      if done.code == 0 then Outcome(Ok(Some(done.code)), done.log)
      else Eval(tail[1..], false, done.cwd, [], done.log, world)
  }

  ghost predicate PipesOn(g: Group) {
    forall i :: 0 <= i < |g| - 1 ==> g[i].command.stdout == ToPipe
  }

  /** The process before is the last one started, and kept its pipe. */
  ghost predicate InPipe(piping: bool, piped: seq<nat>, log: Log) {
    && Known(piped, log)
    && (piping <==> piped != [])
    && (piping ==> piped[|piped| - 1] == |log| - 1 && log[|log| - 1].stdout == ToPipe)
  }

  ghost predicate GroupEvaluated(g: Group, tail: seq<Node>, piping: bool, cwd: string,
                                 piped: seq<nat>, log: Log, world: World)
    requires InPipe(piping, piped, log)
  {
    var (cwd', log') := StartStages(g, if piping then Some(|log| - 1) else None, cwd, log);
    && log' != []
    && Eval(FlattenGroup(g) + tail, piping, cwd, piped, log, world)
       == AfterGroup(Progress(world(log', |log'| - 1), cwd', log'), tail, world)
  }

  lemma EvalSingle(g: Group, tail: seq<Node>, piping: bool, cwd: string, piped: seq<nat>, log: Log, world: World)
    requires |g| == 1
    requires tail == [] || tail[0] == And || tail[0] == Or
    requires InPipe(piping, piped, log)
    ensures GroupEvaluated(g, tail, piping, cwd, piped, log, world)
  {
    hide Eval, AfterGroup;
    var c, cwd1 := g[0].command, JoinDirs(cwd, g[0].dirs);
    assert FlattenGroup(g) + tail == FlattenDirs(g[0].dirs) + ([Run(c)] + tail);
    EvalDirs(g[0].dirs, [Run(c)] + tail, piping, cwd, piped, log, world);
    EvalLastStage(c, tail, piping, cwd1, piped, log, world);
    var stdin := if piping then PipedInput(piped, log) else StdinOf(c);
    var before := if piping then Some(|log| - 1) else None;
    assert g[1..] == [];
    assert StartStages(g, before, cwd, log) == (cwd1, log + [SpawnOf(c, stdin, cwd1)]);
  }

  lemma EvalPiped(c: Command, more: seq<Node>, piping: bool, cwd: string, piped: seq<nat>, log: Log, world: World)
    requires InPipe(piping, piped, log)
    ensures var stdin := if piping then FromProcess(|log| - 1) else StdinOf(c);
      var log' := log + [SpawnOf(c, stdin, cwd)];
      Eval([Run(c), Pipe] + more, piping, cwd, piped, log, world)
      == Eval(more, true, cwd, piped + [|log|], log', world)
  {
  }

  lemma {:induction false} EvalGroup(g: Group, tail: seq<Node>, piping: bool, cwd: string,
                                     piped: seq<nat>, log: Log, world: World)
    requires g != [] && PipesOn(g)
    requires tail == [] || tail[0] == And || tail[0] == Or
    requires InPipe(piping, piped, log)
    ensures GroupEvaluated(g, tail, piping, cwd, piped, log, world)
    decreases |g|
  {
    hide Eval, AfterGroup, FlattenGroup, FlattenDirs, SpawnOf, JoinDirs, PipesOn;
    if |g| == 1 {
      EvalSingle(g, tail, piping, cwd, piped, log, world);
    } else {
      var c, cwd1 := g[0].command, JoinDirs(cwd, g[0].dirs);
      var stdin := if piping then FromProcess(|log| - 1) else StdinOf(c);
      var spawn := SpawnOf(c, stdin, cwd1);
      var more := FlattenGroup(g[1..]) + tail;
      FlattenGroupStep(g, tail);
      assert spawn.stdout == ToPipe;
      EvalDirs(g[0].dirs, [Run(c), Pipe] + more, piping, cwd, piped, log, world);
      EvalPiped(c, more, piping, cwd1, piped, log, world);
      EvalGroup(g[1..], tail, true, cwd1, piped + [|log|], log + [spawn], world);
    }
  }

  lemma FlattenGroupStep(g: Group, tail: seq<Node>)
    requires |g| > 1 && PipesOn(g)
    ensures FlattenGroup(g) + tail
         == FlattenDirs(g[0].dirs) + ([Run(g[0].command), Pipe] + (FlattenGroup(g[1..]) + tail))
    ensures g[0].command.stdout == ToPipe && PipesOn(g[1..])
    ensures forall stdin, cwd :: SpawnOf(g[0].command, stdin, cwd).stdout == ToPipe
  {
    assert g[0].command.stdout == ToPipe;
    Regroup(FlattenDirs(g[0].dirs), Run(g[0].command), Pipe, FlattenGroup(g[1..]), tail);
    hide FlattenDirs;
  }

  lemma Regroup<T>(a: seq<T>, x: T, y: T, b: seq<T>, c: seq<T>)
    ensures (a + [x] + ([y] + b)) + c == a + ([x, y] + (b + c))
  {
  }

  lemma EvalLastStage(c: Command, tail: seq<Node>, piping: bool, cwd: string, piped: seq<nat>, log: Log, world: World)
    requires tail == [] || tail[0] == And || tail[0] == Or
    requires Known(piped, log) && (piping ==> piped != [])
    ensures var stdin := if piping then PipedInput(piped, log) else StdinOf(c);
      var log' := log + [SpawnOf(c, stdin, cwd)];
      Eval([Run(c)] + tail, piping, cwd, piped, log, world)
      == AfterGroup(Progress(world(log', |log|), cwd, log'), tail, world)
  {
    var nodes := [Run(c)] + tail;
    var stdin := if piping then PipedInput(piped, log) else StdinOf(c);
    var log' := log + [SpawnOf(c, stdin, cwd)];
    GroupCodeIsLast(ExitCodes(piped + [|log|], log', world));
    hide GroupCode;
    if tail != [] {
      assert nodes[1] == tail[0] && nodes[2..] == tail[1..];
    }
  }

  lemma {:induction false} EvalFlatten(g: Group, rest: seq<(Connective, Group)>, at: Progress, world: World)
    requires ValidList(AndOrList(g, rest))
    ensures var done := RightNested(g, rest, at, world);
            Eval(Flatten(g, rest), false, at.cwd, [], at.log, world) == Outcome(Ok(Some(done.code)), done.log)
    decreases |rest|
  {
    var tail := if rest == [] then [] else [OpOf(rest[0].0)] + Flatten(rest[0].1, rest[1..]);
    EvalGroup(g, tail, false, at.cwd, [], at.log, world);
    if rest != [] {
      assert tail[1..] == Flatten(rest[0].1, rest[1..]);
      var done := RunGroup(g, at, world);
      assert ValidList(AndOrList(rest[0].1, rest[1..]));
      EvalFlatten(rest[0].1, rest[1..], done, world);
    }
  }

  // ----- every parsed pipeline that can run stands for an and-or list ------------

  /** No `cd` is left without a directory, and none ends the line. */
  predicate Runnable(pipeline: seq<Node>) {
    && pipeline != [] && !pipeline[|pipeline| - 1].Chdir?
    && forall i :: 0 <= i < |pipeline| ==> pipeline[i] != Chdir(None)
  }

  lemma MoreDirs(d: string, g: Group, rest: seq<(Connective, Group)>)
    requires ValidList(AndOrList(g, rest))
    ensures var g' := [Stage([d] + g[0].dirs, g[0].command)] + g[1..];
      && ValidList(AndOrList(g', rest))
      && Flatten(g', rest) == [Chdir(Some(d)), And] + Flatten(g, rest)
  {
    var g' := [Stage([d] + g[0].dirs, g[0].command)] + g[1..];
    assert g'[1..] == g[1..];
    assert ([d] + g[0].dirs)[1..] == g[0].dirs;
    assert FlattenGroup(g') == [Chdir(Some(d)), And] + FlattenGroup(g);
    forall i | 0 <= i < |g'| ensures g'[i].command.stdout == ToPipe <==> i + 1 < |g'| {
      assert g'[i].command == g[i].command;
    }
  }

  lemma MoreStages(c: Command, g: Group, rest: seq<(Connective, Group)>)
    requires ValidList(AndOrList(g, rest)) && c.stdout == ToPipe
    ensures var g' := [Stage([], c)] + g;
      && ValidList(AndOrList(g', rest))
      && Flatten(g', rest) == [Run(c), Pipe] + Flatten(g, rest)
  {
    var g' := [Stage([], c)] + g;
    assert g'[1..] == g;
    assert FlattenGroup(g') == [Run(c), Pipe] + FlattenGroup(g);
    forall i | 0 <= i < |g'| ensures g'[i].command.stdout == ToPipe <==> i + 1 < |g'| {
      assert i > 0 ==> g'[i] == g[i - 1];
    }
  }

  lemma MoreGroups(c: Command, op: Connective, g: Group, rest: seq<(Connective, Group)>)
    requires ValidList(AndOrList(g, rest)) && c.stdout != ToPipe
    ensures var rest' := [(op, g)] + rest;
      && ValidList(AndOrList([Stage([], c)], rest'))
      && Flatten([Stage([], c)], rest') == [Run(c), OpOf(op)] + Flatten(g, rest)
  {
    assert ([(op, g)] + rest)[1..] == rest;
    assert FlattenGroup([Stage([], c)]) == [Run(c)];
  }

  lemma OneCommand(c: Command)
    requires c.stdout != ToPipe
    ensures ValidList(AndOrList([Stage([], c)], [])) && Flatten([Stage([], c)], []) == [Run(c)]
  {
  }

  lemma {:induction false} Structure(pipeline: seq<Node>, i: nat) returns (first: Group, rest: seq<(Connective, Group)>)
    requires WellFormed(pipeline) && Runnable(pipeline) && i < |pipeline| && i % 2 == 0
    ensures first != [] && ValidList(AndOrList(first, rest)) && Flatten(first, rest) == pipeline[i..]
    decreases |pipeline| - i
  {
    hide Flatten, ValidList, CommandOk;
    assert PositionOk(pipeline, i);
    var node := pipeline[i];
    if i + 1 == |pipeline| {
      OneCommand(node.command);
      first, rest := [Stage([], node.command)], [];
      assert [node] == pipeline[i..];
    } else {
      var op := pipeline[i + 1];
      assert PositionOk(pipeline, i + 1);
      assert pipeline[i..] == [node, op] + pipeline[i + 2..];
      first, rest := Structure(pipeline, i + 2);
      if node.Chdir? {
        MoreDirs(node.dir.value, first, rest);
        first := [Stage([node.dir.value] + first[0].dirs, first[0].command)] + first[1..];
      } else if op == Pipe {
        MoreStages(node.command, first, rest);
        first := [Stage([], node.command)] + first;
      } else {
        var connective := if op == And then AndThen else OrElse;
        MoreGroups(node.command, connective, first, rest);
        first, rest := [Stage([], node.command)], [(connective, first)] + rest;
      }
    }
  }

  /** `run` gives a parsed pipeline the right-nested meaning of its and-or list: the same exit code, and
      the same processes started in the same order with the same input and working directory, in every world. */
  lemma RunIsRightNested(pipeline: seq<Node>) returns (l: AndOrList)
    requires WellFormed(pipeline) && Runnable(pipeline)
    ensures ValidList(l) && Flatten(l.first, l.rest) == pipeline
    ensures forall world: World ::
      var done := RightNested(l.first, l.rest, AT_START, world);
      EvalPipeline(pipeline, world) == Outcome(Ok(Some(done.code)), done.log)
  {
    var first, rest := Structure(pipeline, 0);
    assert pipeline[0..] == pipeline;
    l := AndOrList(first, rest);
    forall world: World
      ensures var done := RightNested(l.first, l.rest, AT_START, world);
              EvalPipeline(pipeline, world) == Outcome(Ok(Some(done.code)), done.log)
    {
      EvalFlatten(first, rest, AT_START, world);
    }
  }

  // ----- when it raises ----------------------------------------------------------

  /** On parsed pipelines the node assertions never fail and the loop is never left without a value. */
  lemma {:induction false} EvalParsed(pipeline: seq<Node>, i: nat, piping: bool, cwd: string,
                                      piped: seq<nat>, log: Log, world: World)
    requires WellFormed(pipeline) && i < |pipeline| && i % 2 == 0
    requires Known(piped, log) && (piping ==> piped != [])
    ensures var r := Eval(pipeline[i..], piping, cwd, piped, log, world).result;
      && r != Err(NodeAssertion) && r != Ok(None)
      && (r == Err(PopFromEmptyList) ==> pipeline[|pipeline| - 1].Chdir?)
      && (r == Err(JoinWithNone) ==> Chdir(None) in pipeline)
    decreases |pipeline| - i
  {
    hide OperandOk, GroupCode, WellFormed, SpawnOf;
    OperandAt(pipeline, i);
    var nodes := pipeline[i..];
    assert nodes[0] == pipeline[i];
    if |nodes| > 1 {
      assert nodes[1] == pipeline[i + 1] && nodes[2..] == pipeline[i + 2..];
      if nodes[0].Chdir? {
        if nodes[0].dir.Some? {
          EvalParsed(pipeline, i + 2, piping, JoinPath(cwd, nodes[0].dir.value), piped, log, world);
        }
      } else {
        var stdin := if piping then PipedInput(piped, log) else StdinOf(nodes[0].command);
        var log' := log + [SpawnOf(nodes[0].command, stdin, cwd)];
        EvalParsed(pipeline, i + 2, true, cwd, piped + [|log|], log', world);
        EvalParsed(pipeline, i + 2, false, cwd, [], log', world);
      }
    }
  }

  /** Codes that let every operator of the line proceed. */
  function ProceedCodes(nodes: seq<Node>): seq<int> {
    if nodes == [] then []
    else if nodes[0].Run? then
      [if |nodes| > 1 && nodes[1] == Or then 1 else 0] + ProceedCodes(nodes[1..])
    else ProceedCodes(nodes[1..])
  }

  ghost predicate Answers(world: World, codes: seq<int>, from: nat) {
    forall log: Log, n: nat :: from <= n < from + |codes| ==> world(log, n) == codes[n - from]
  }

  /** A command whose group's code lets the operator behind it proceed. */
  lemma EvalProceeds(nodes: seq<Node>, piping: bool, cwd: string, piped: seq<nat>, log: Log, world: World)
    requires |nodes| > 1 && nodes[0].Run? && IsOp(nodes[1])
    requires Known(piped, log) && (piping ==> piped != [])
    requires forall lg: Log :: world(lg, |log|) == if nodes[1] == Or then 1 else 0
    ensures var c := nodes[0].command;
      var log' := log + [SpawnOf(c, if piping then PipedInput(piped, log) else StdinOf(c), cwd)];
      Eval(nodes, piping, cwd, piped, log, world)
      == Eval(nodes[2..], nodes[1] == Pipe, cwd, if nodes[1] == Pipe then piped + [|log|] else [], log', world)
  {
    var c := nodes[0].command;
    var log' := log + [SpawnOf(c, if piping then PipedInput(piped, log) else StdinOf(c), cwd)];
    GroupCodeIsLast(ExitCodes(piped + [|log|], log', world));
    hide GroupCode;
  }

  lemma ProceedCodesSkip(nodes: seq<Node>)
    requires |nodes| > 1 && IsOp(nodes[1])
    ensures ProceedCodes(nodes) ==
            (if nodes[0].Run? then [if nodes[1] == Or then 1 else 0] else []) + ProceedCodes(nodes[2..])
  {
  }

  lemma OperandAt(pipeline: seq<Node>, i: nat)
    requires WellFormed(pipeline) && i < |pipeline| && i % 2 == 0
    ensures pipeline[i].Run? || pipeline[i].Chdir?
    ensures i + 1 < |pipeline| ==> i + 2 < |pipeline| && IsOp(pipeline[i + 1])
    ensures i + 1 < |pipeline| && pipeline[i].Chdir? ==> pipeline[i + 1] == And
  {
    assert PositionOk(pipeline, i);
    assert i + 1 < |pipeline| ==> PositionOk(pipeline, i + 1);
  }

  ghost predicate BadCdFrom(pipeline: seq<Node>, i: nat) {
    exists j :: i <= j < |pipeline| && (pipeline[j] == Chdir(None) || (pipeline[j].Chdir? && j + 1 == |pipeline|))
  }

  lemma {:induction false} EvalReachesBadCd(pipeline: seq<Node>, i: nat, piping: bool, cwd: string,
                                            piped: seq<nat>, log: Log, world: World)
    requires WellFormed(pipeline) && i < |pipeline| && i % 2 == 0
    requires Known(piped, log) && (piping ==> piped != [])
    requires Answers(world, ProceedCodes(pipeline[i..]), |log|)
    requires BadCdFrom(pipeline, i)
    ensures Eval(pipeline[i..], piping, cwd, piped, log, world).result.Err?
    decreases |pipeline| - i
  {
    hide OperandOk, GroupCode, ProceedCodes, Eval, Answers, WellFormed, SpawnOf;
    OperandAt(pipeline, i);
    var nodes := pipeline[i..];
    assert nodes[0] == pipeline[i];
    if |nodes| == 1 || nodes[0] == Chdir(None) {
      assert nodes[0].Chdir?;
      EvalBadCd(nodes, piping, cwd, piped, log, world);
    } else {
      assert nodes[1] == pipeline[i + 1] && nodes[2..] == pipeline[i + 2..];
      ProceedCodesSkip(nodes);
      assert BadCdFrom(pipeline, i + 2);
      if nodes[0].Chdir? {
        EvalCd(nodes, piping, cwd, piped, log, world);
        assert ProceedCodes(nodes) == ProceedCodes(pipeline[i + 2..]);
        EvalReachesBadCd(pipeline, i + 2, piping, JoinPath(cwd, nodes[0].dir.value), piped, log, world);
      } else {
        var c := nodes[0].command;
        var log' := log + [SpawnOf(c, if piping then PipedInput(piped, log) else StdinOf(c), cwd)];
        AnswersTail(world, if nodes[1] == Or then 1 else 0, ProceedCodes(nodes[2..]), |log|);
        EvalProceeds(nodes, piping, cwd, piped, log, world);
        EvalReachesBadCd(pipeline, i + 2, nodes[1] == Pipe, cwd,
                         if nodes[1] == Pipe then piped + [|log|] else [], log', world);
      }
    }
  }

  lemma AnswersTail(world: World, code: int, codes: seq<int>, from: nat)
    requires Answers(world, [code] + codes, from)
    ensures forall lg: Log :: world(lg, from) == code
    ensures Answers(world, codes, from + 1)
  {
  }

  lemma EvalBadCd(nodes: seq<Node>, piping: bool, cwd: string, piped: seq<nat>, log: Log, world: World)
    requires nodes != [] && nodes[0].Chdir? && (|nodes| == 1 || nodes[0].dir == None)
    requires Known(piped, log) && (piping ==> piped != [])
    ensures Eval(nodes, piping, cwd, piped, log, world).result.Err?
  {
  }

  lemma EvalCd(nodes: seq<Node>, piping: bool, cwd: string, piped: seq<nat>, log: Log, world: World)
    requires |nodes| > 1 && nodes[0].Chdir? && nodes[0].dir.Some? && nodes[1] == And
    requires Known(piped, log) && (piping ==> piped != [])
    ensures Eval(nodes, piping, cwd, piped, log, world)
         == Eval(nodes[2..], piping, JoinPath(cwd, nodes[0].dir.value), piped, log, world)
  {
  }

  /** A parsed pipeline runs without an exception in every world if and only if it has no bare `cd`
      and does not end in one. */
  lemma RunsCleanIffRunnable(pipeline: seq<Node>)
    requires WellFormed(pipeline)
    ensures Runnable(pipeline) <==> forall world: World :: EvalPipeline(pipeline, world).result.Ok?
  {
    if Runnable(pipeline) {
      var l := RunIsRightNested(pipeline);
    } else {
      var codes := ProceedCodes(pipeline);
      var world: World := (log: Log, n: nat) => if n < |codes| then codes[n] else 0;
      assert pipeline[0..] == pipeline;
      assert Answers(world, codes, 0);
      EvalReachesBadCd(pipeline, 0, false, ".", [], [], world);
      assert !EvalPipeline(pipeline, world).result.Ok?;
    }
  }
}
