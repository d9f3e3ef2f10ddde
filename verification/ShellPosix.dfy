/** The reading of `run` compared with the one of sections 2.9.2 and 2.9.3 of the POSIX Shell Command
    Language: and-or lists associate to the left, a `cd` is a command like any other, the redirections of a
    command go before the pipe in front of it, and they open files in the directory it is run in. */
module ShellPosix {
  import opened Results
  import opened ShellSyntax
  import opened ShellSemantics

  // ----- the line as POSIX groups it ----------------------------------------------

  /** What `&&` and `||` join: a `cd` alone, or commands joined by pipes, the last pipe possibly into a `cd`. */
  datatype Element = Change(dir: string) | Piped(commands: seq<Command>, cd: Option<string>)

  type Joined = seq<(Connective, Element)>

  function Alone(node: Node): Element {
    match node
    case Run(c) => Piped([c], None)
    case Chdir(dir) => if dir.Some? then Change(dir.value) else Piped([], None)
    case _ => Piped([], None)
  }

  function PipedInto(node: Node, next: Element): Element {
    var before := if node.Run? then [node.command] else [];
    match next
    case Change(d) => Piped(before, Some(d))
    case Piped(cs, cd) => Piped(before + cs, cd)
  }

  /** The first element of a line, and the others with the operators in front of them. */
  function Elements(nodes: seq<Node>): (Element, Joined) {
    if nodes == [] then (Piped([], None), [])
    else if |nodes| <= 2 then (Alone(nodes[0]), [])
    else
      var (next, rest) := Elements(nodes[2..]);
      if nodes[1] == Pipe then (PipedInto(nodes[0], next), rest)
      else (Alone(nodes[0]), [(if nodes[1] == And then AndThen else OrElse, next)] + rest)
  }

  function NodesOfPiped(commands: seq<Command>, cd: Option<string>): seq<Node> {
    if commands == [] then (if cd.Some? then [Chdir(cd)] else [])
    else if |commands| == 1 && cd == None then [Run(commands[0])]
    else [Run(commands[0]), Pipe] + NodesOfPiped(commands[1..], cd)
  }

  function NodesOf(e: Element): seq<Node> {
    match e
    case Change(d) => [Chdir(Some(d))]
    case Piped(cs, cd) => NodesOfPiped(cs, cd)
  }

  function NodesOfAll(first: Element, rest: Joined): seq<Node>
    decreases |rest|
  {
    NodesOf(first) + if rest == [] then [] else [OpOf(rest[0].0)] + NodesOfAll(rest[0].1, rest[1..])
  }

  // ----- what it does --------------------------------------------------------------

  /** The path of a file that is opened in this directory. */
  function Place(name: string, cwd: string): string {
    if cwd == "." then name else JoinPath(cwd, name)
  }

  function PlaceRedirect(r: Redirect, cwd: string): Redirect {
    if r.File? then File(Place(r.name, cwd)) else r
  }

  function Placed(c: Command, cwd: string): Command {
    c.(stdin := if c.stdin.Some? then Some(Place(c.stdin.value, cwd)) else None,
       stdout := PlaceRedirect(c.stdout, cwd),
       stderr := PlaceRedirect(c.stderr, cwd))
  }

  /** Behind a pipe a command reads what the process before writes, unless it has an input of its own. */
  function PosixSpawn(c: Command, piping: bool, cwd: string, log: Log): Spawn {
    var p := Placed(c, cwd);
    SpawnOf(p, if piping && c.stdin == None && log != [] then FromProcess(|log| - 1) else StdinOf(p), cwd)
  }

  function StartPiped(commands: seq<Command>, piping: bool, cwd: string, log: Log): Log {
    if commands == [] then log
    else StartPiped(commands[1..], true, cwd, log + [PosixSpawn(commands[0], piping, cwd, log)])
  }

  /** An element, of which `piping` tells that a pipe leads into it. A `cd` behind a pipe changes nothing. */
  function RunPart(e: Element, piping: bool, at: Progress, world: World): Progress {
    match e
    case Change(d) => Progress(0, if piping then at.cwd else JoinPath(at.cwd, d), at.log)
    case Piped(cs, cd) =>
      var log := StartPiped(cs, piping, at.cwd, at.log);
      Progress(if cd.Some? || log == [] then 0 else world(log, |log| - 1), at.cwd, log)
  }

  function RunElement(e: Element, at: Progress, world: World): Progress {
    RunPart(e, false, at, world)
  }

  /** `(list) && e` and `(list) || e`: whether `e` runs is up to the code of all that stands to its left. */
  function LeftNested(first: Element, rest: Joined, world: World): Progress
    decreases |rest|
  {
    if rest == [] then RunElement(first, AT_START, world)
    else
      var (op, e) := rest[|rest| - 1];
      var done := LeftNested(first, rest[..|rest| - 1], world);
      if Proceeds(op, done.code) then RunElement(e, done, world) else done
  }

  function PosixReading(pipeline: seq<Node>, world: World): Progress {
    var (first, rest) := Elements(pipeline);
    LeftNested(first, rest, world)
  }

  predicate AlternatesAt(pipeline: seq<Node>, i: nat)
    requires i < |pipeline|
  {
    if i % 2 == 1 then IsOp(pipeline[i])
    else pipeline[i].Run? || (pipeline[i].Chdir? && (i + 1 < |pipeline| ==> pipeline[i + 1] == And))
  }

  /** Operands and operators alternate, and only `&&` stands behind a `cd`. */
  ghost predicate Alternates(pipeline: seq<Node>) {
    |pipeline| % 2 == 1 && forall i: nat :: i < |pipeline| ==> AlternatesAt(pipeline, i)
  }

  lemma WellFormedAlternates(pipeline: seq<Node>)
    requires WellFormed(pipeline)
    ensures Alternates(pipeline)
  {
    forall i: nat | i < |pipeline| ensures AlternatesAt(pipeline, i) {
      assert PositionOk(pipeline, i);
    }
  }

  lemma PairAt(pipeline: seq<Node>, i: nat)
    requires Alternates(pipeline) && i < |pipeline| && i % 2 == 0
    ensures pipeline[i].Run? || pipeline[i].Chdir?
    ensures i + 1 < |pipeline| ==> i + 2 < |pipeline| && IsOp(pipeline[i + 1])
    ensures i + 1 < |pipeline| && pipeline[i].Chdir? ==> pipeline[i + 1] == And
  {
    assert AlternatesAt(pipeline, i);
    assert i + 1 < |pipeline| ==> AlternatesAt(pipeline, i + 1);
  }

  // ----- the elements are those of the line ------------------------------------------

  /** Taking the line apart and putting it together again gives the line. */
  lemma {:induction false} ElementsOfLine(pipeline: seq<Node>, i: nat)
    requires Alternates(pipeline) && Runnable(pipeline) && i < |pipeline| && i % 2 == 0
    ensures var (first, rest) := Elements(pipeline[i..]);
            (first.Piped? ==> first.commands != []) && NodesOfAll(first, rest) == pipeline[i..]
    decreases |pipeline| - i
  {
    hide Alternates, NodesOfAll, NodesOf, PipedInto, Elements;
    PairAt(pipeline, i);
    var nodes := pipeline[i..];
    assert nodes[0] == pipeline[i];
    if |nodes| == 1 {
      OneElement(nodes);
    } else {
      assert nodes[1] == pipeline[i + 1] && nodes[2..] == pipeline[i + 2..];
      ElementsOfLine(pipeline, i + 2);
      if nodes[1] == Pipe {
        ElementsPiped(nodes);
      } else {
        ElementsJoined(nodes);
      }
    }
  }

  lemma OneElement(nodes: seq<Node>)
    requires |nodes| == 1 && (nodes[0].Run? || (nodes[0].Chdir? && nodes[0].dir.Some?))
    ensures var (first, rest) := Elements(nodes);
            (first.Piped? ==> first.commands != []) && NodesOfAll(first, rest) == nodes
  {
    assert nodes == [nodes[0]];
  }

  lemma ElementsPiped(nodes: seq<Node>)
    requires |nodes| > 2 && nodes[0].Run? && nodes[1] == Pipe
    requires var (next, rest) := Elements(nodes[2..]);
             (next.Piped? ==> next.commands != []) && NodesOfAll(next, rest) == nodes[2..]
    ensures var (first, rest) := Elements(nodes);
            first.Piped? && first.commands != [] && NodesOfAll(first, rest) == nodes
  {
    hide NodesOfAll, NodesOf;
    var (next, rest) := Elements(nodes[2..]);
    NodesOfPipedInto(nodes[0], next, nodes[2..], rest);
    assert nodes == [nodes[0], Pipe] + nodes[2..];
  }

  lemma ElementsJoined(nodes: seq<Node>)
    requires |nodes| > 2 && (nodes[0].Run? || (nodes[0].Chdir? && nodes[0].dir.Some?))
    requires nodes[1] == And || nodes[1] == Or
    requires var (next, rest) := Elements(nodes[2..]); NodesOfAll(next, rest) == nodes[2..]
    ensures var (first, rest) := Elements(nodes);
            (first.Piped? ==> first.commands != []) && NodesOfAll(first, rest) == nodes
  {
    hide NodesOfAll, NodesOfPiped;
    var (next, rest) := Elements(nodes[2..]);
    NodesJoined(Alone(nodes[0]), if nodes[1] == And then AndThen else OrElse, next, rest);
    NodesOfAlone(nodes[0]);
    assert nodes == [nodes[0]] + ([nodes[1]] + nodes[2..]);
  }

  lemma NodesOfAlone(node: Node)
    requires node.Run? || (node.Chdir? && node.dir.Some?)
    ensures NodesOf(Alone(node)) == [node]
  {
  }

  lemma NodesJoined(e: Element, op: Connective, next: Element, rest: Joined)
    ensures NodesOfAll(e, [(op, next)] + rest) == NodesOf(e) + ([OpOf(op)] + NodesOfAll(next, rest))
  {
    assert ([(op, next)] + rest)[1..] == rest;
  }

  lemma NodesOfPipedInto(node: Node, next: Element, nodes: seq<Node>, rest: Joined)
    requires node.Run? && NodesOfAll(next, rest) == nodes
    requires next.Piped? ==> next.commands != []
    ensures NodesOfAll(PipedInto(node, next), rest) == [node, Pipe] + nodes
  {
    hide NodesOf, PipedInto;
    NodesPiped(node, next);
    var joined := if rest == [] then [] else [OpOf(rest[0].0)] + NodesOfAll(rest[0].1, rest[1..]);
    assert nodes == NodesOf(next) + joined;
  }

  lemma NodesPiped(node: Node, next: Element)
    requires node.Run? && (next.Piped? ==> next.commands != [])
    ensures NodesOf(PipedInto(node, next)) == [node, Pipe] + NodesOf(next)
  {
    match next
    case Change(d) =>
      assert [node.command][1..] == [];
      assert NodesOfPiped([node.command], Some(d)) == [node, Pipe] + NodesOfPiped([], Some(d));
    case Piped(cs, cd) =>
      assert ([node.command] + cs)[1..] == cs;
      assert NodesOfPiped([node.command] + cs, cd) == [node, Pipe] + NodesOfPiped(cs, cd);
  }

  // ----- the same, node by node ------------------------------------------------------

  /** What one operand does. */
  function Operand(node: Node, piping: bool, at: Progress, world: World): Progress {
    RunPart(Alone(node), piping, at, world)
  }

  /** The reading from the left: `go` tells whether the element begun last is being run. */
  function Flow(nodes: seq<Node>, go: bool, piping: bool, at: Progress, world: World): Progress
    decreases |nodes|
  {
    if nodes == [] then at
    else
      var next := if go then Operand(nodes[0], piping, at, world) else at;
      if |nodes| <= 2 then next
      else if nodes[1] == Pipe then Flow(nodes[2..], go, true, next, world)
      else Flow(nodes[2..], Proceeds(if nodes[1] == And then AndThen else OrElse, next.code), false, next, world)
  }

  function Fold(done: Progress, rest: Joined, world: World): Progress
    decreases |rest|
  {
    if rest == [] then done
    else Fold(if Proceeds(rest[0].0, done.code) then RunElement(rest[0].1, done, world) else done, rest[1..], world)
  }

  lemma {:induction false} FoldAppend(done: Progress, rest: Joined, op: Connective, e: Element, world: World)
    ensures var before := Fold(done, rest, world);
      Fold(done, rest + [(op, e)], world) == if Proceeds(op, before.code) then RunElement(e, before, world) else before
    decreases |rest|
  {
    hide RunElement;
    var all := rest + [(op, e)];
    if rest == [] {
      assert all[1..] == [];
    } else {
      assert all[1..] == rest[1..] + [(op, e)];
      var next := if Proceeds(rest[0].0, done.code) then RunElement(rest[0].1, done, world) else done;
      FoldAppend(next, rest[1..], op, e, world);
    }
  }

  lemma {:induction false} LeftNestedIsFold(first: Element, rest: Joined, world: World)
    ensures LeftNested(first, rest, world) == Fold(RunElement(first, AT_START, world), rest, world)
    decreases |rest|
  {
    hide RunElement;
    if rest != [] {
      var n := |rest| - 1;
      LeftNestedIsFold(first, rest[..n], world);
      FoldAppend(RunElement(first, AT_START, world), rest[..n], rest[n].0, rest[n].1, world);
      assert rest == rest[..n] + [(rest[n].0, rest[n].1)];
    }
  }

  lemma PartPiped(node: Node, next: Element, piping: bool, at: Progress, world: World)
    requires node.Run?
    ensures RunPart(PipedInto(node, next), piping, at, world)
         == RunPart(next, true, Operand(node, piping, at, world), world)
  {
    var c := node.command;
    var log := at.log + [PosixSpawn(c, piping, at.cwd, at.log)];
    assert StartPiped([c], piping, at.cwd, at.log) == log by {
      assert [c][1..] == [];
    }
    if next.Piped? {
      assert ([c] + next.commands)[1..] == next.commands;
      assert StartPiped([c] + next.commands, piping, at.cwd, at.log) == StartPiped(next.commands, true, at.cwd, log);
      StartPipedGrows(next.commands, true, at.cwd, log);
    }
  }

  lemma {:induction false} StartPipedGrows(commands: seq<Command>, piping: bool, cwd: string, log: Log)
    ensures |StartPiped(commands, piping, cwd, log)| == |log| + |commands|
    decreases |commands|
  {
    if commands != [] {
      StartPipedGrows(commands[1..], true, cwd, log + [PosixSpawn(commands[0], piping, cwd, log)]);
    }
  }

  lemma {:induction false} FlowIsFold(pipeline: seq<Node>, i: nat, go: bool, piping: bool, at: Progress, world: World)
    requires Alternates(pipeline) && i < |pipeline| && i % 2 == 0
    ensures var (first, rest) := Elements(pipeline[i..]);
            Flow(pipeline[i..], go, piping, at, world)
            == Fold(if go then RunPart(first, piping, at, world) else at, rest, world)
    decreases |pipeline| - i
  {
    hide Alternates, RunPart, PipedInto, Alone;
    PairAt(pipeline, i);
    var nodes := pipeline[i..];
    assert nodes[0] == pipeline[i];
    if |nodes| > 1 {
      assert nodes[1] == pipeline[i + 1] && nodes[2..] == pipeline[i + 2..];
      var done := if go then Operand(nodes[0], piping, at, world) else at;
      var (next, rest) := Elements(nodes[2..]);
      if nodes[1] == Pipe {
        PartPiped(nodes[0], next, piping, at, world);
        FlowIsFold(pipeline, i + 2, go, true, done, world);
      } else {
        var op := if nodes[1] == And then AndThen else OrElse;
        assert ([(op, next)] + rest)[1..] == rest;
        FlowIsFold(pipeline, i + 2, Proceeds(op, done.code), false, done, world);
      }
    }
  }

  lemma ReadingIsFlow(pipeline: seq<Node>, world: World)
    requires Alternates(pipeline)
    ensures PosixReading(pipeline, world) == Flow(pipeline, true, false, AT_START, world)
  {
    var (first, rest) := Elements(pipeline);
    LeftNestedIsFold(first, rest, world);
    assert pipeline[0..] == pipeline;
    FlowIsFold(pipeline, 0, true, false, AT_START, world);
  }

  // ----- where the readings agree ------------------------------------------------------

  /** A node that takes the output of a process piped into it. */
  predicate Takes(node: Node) {
    node.Run? && node.command.stdin == None
  }

  /** No pipe leads into a `cd`, or into a command with an input of its own. */
  ghost predicate PipesFeed(pipeline: seq<Node>) {
    forall i :: 0 <= i < |pipeline| - 1 && pipeline[i] == Pipe ==> Takes(pipeline[i + 1])
  }

  predicate Joins(node: Node) {
    node == And || node == Or
  }

  /** An operator behind a command, and a later one of the other kind. The one behind a `cd` always proceeds,
      so it is only counted as the later one. */
  predicate Clash(pipeline: seq<Node>, i: nat, j: nat)
    requires 0 < i < |pipeline| && j < |pipeline|
  {
    Joins(pipeline[i]) && pipeline[i - 1].Run? && Joins(pipeline[j]) && pipeline[j] != pipeline[i]
  }

  ghost predicate Steady(pipeline: seq<Node>) {
    forall i: nat, j: nat :: 0 < i < j < |pipeline| ==> !Clash(pipeline, i, j)
  }

  predicate Rooted(name: string) {
    name != "" && name[0] == '/'
  }

  predicate RootedFiles(c: Command) {
    && (c.stdin.Some? ==> Rooted(c.stdin.value))
    && (c.stdout.File? ==> Rooted(c.stdout.name))
    && (c.stderr.File? ==> Rooted(c.stderr.name))
  }

  /** Behind a `cd` only absolute paths are opened. */
  ghost predicate FilesStay(pipeline: seq<Node>) {
    forall i, j :: 0 <= i < j < |pipeline| && pipeline[i].Chdir? && pipeline[j].Run? ==>
      RootedFiles(pipeline[j].command)
  }

  /** No command from here on opens a relative path in another directory. */
  ghost predicate StayFrom(pipeline: seq<Node>, i: nat, cwd: string) {
    cwd == "." || forall j :: i <= j < |pipeline| && pipeline[j].Run? ==> RootedFiles(pipeline[j].command)
  }

  lemma PlacedSame(c: Command, cwd: string)
    requires cwd == "." || RootedFiles(c)
    ensures Placed(c, cwd) == c
  {
  }

  /** What stops at an operator is not taken up again behind it. */
  lemma {:induction false} FlowStuck(pipeline: seq<Node>, i: nat, piping: bool, at: Progress, world: World, op: Node)
    requires WellFormed(pipeline) && i < |pipeline| && i % 2 == 0
    requires Joins(op) && !Proceeds(if op == And then AndThen else OrElse, at.code)
    requires forall j :: i <= j < |pipeline| && Joins(pipeline[j]) ==> pipeline[j] == op
    ensures Flow(pipeline[i..], false, piping, at, world) == at
    decreases |pipeline| - i
  {
    hide WellFormed, Operand;
    OperandAt(pipeline, i);
    var nodes := pipeline[i..];
    if |nodes| > 1 {
      assert nodes[1] == pipeline[i + 1] && nodes[2..] == pipeline[i + 2..];
      FlowStuck(pipeline, i + 2, nodes[1] == Pipe, at, world, op);
    }
  }

  ghost function ResultOf(done: Progress): Outcome {
    Outcome(Ok(Some(done.code)), done.log)
  }

  /** The last command of a group, in the flat reading. */
  lemma EvalRun(nodes: seq<Node>, piping: bool, cwd: string, piped: seq<nat>, log: Log, world: World)
    requires nodes != [] && nodes[0].Run? && (|nodes| == 1 || (|nodes| > 2 && IsOp(nodes[1])))
    requires InPipe(piping, piped, log)
    ensures var c := nodes[0].command;
      var log' := log + [SpawnOf(c, if piping then FromProcess(|log| - 1) else StdinOf(c), cwd)];
      var code := world(log', |log|);
      Eval(nodes, piping, cwd, piped, log, world) ==
      if |nodes| == 1 then Outcome(Ok(Some(code)), log')
      else if nodes[1] == Pipe then Eval(nodes[2..], true, cwd, piped + [|log|], log', world)
      else if Proceeds(if nodes[1] == And then AndThen else OrElse, code) then
        Eval(nodes[2..], false, cwd, [], log', world)
      else Outcome(Ok(Some(code)), log')
  {
    var c := nodes[0].command;
    var log' := log + [SpawnOf(c, if piping then FromProcess(|log| - 1) else StdinOf(c), cwd)];
    GroupCodeIsLast(ExitCodes(piped + [|log|], log', world));
    hide GroupCode;
  }

  lemma {:induction false} EvalIsFlow(pipeline: seq<Node>, i: nat, piping: bool, at: Progress, piped: seq<nat>,
                                      world: World)
    requires WellFormed(pipeline) && Runnable(pipeline) && i < |pipeline| && i % 2 == 0
    requires InPipe(piping, piped, at.log) && (piping ==> Takes(pipeline[i]))
    requires PipesFeed(pipeline) && Steady(pipeline) && FilesStay(pipeline) && StayFrom(pipeline, i, at.cwd)
    ensures Eval(pipeline[i..], piping, at.cwd, piped, at.log, world)
         == ResultOf(Flow(pipeline[i..], true, piping, at, world))
    decreases |pipeline| - i
  {
    hide WellFormed, Eval, Steady, SpawnOf, FilesStay, StayFrom, RootedFiles, Placed, Rooted;
    OperandAt(pipeline, i);
    var nodes := pipeline[i..];
    assert nodes[0] == pipeline[i];
    if |nodes| > 1 {
      assert nodes[1] == pipeline[i + 1] && nodes[2..] == pipeline[i + 2..];
    }
    var next := Operand(nodes[0], piping, at, world);
    StayStep(pipeline, i, at.cwd, next.cwd);
    if nodes[0].Chdir? {
      EvalCd(nodes, piping, at.cwd, piped, at.log, world);
      EvalIsFlow(pipeline, i + 2, false, next, piped, world);
    } else {
      var c := nodes[0].command;
      PlacedSame(c, at.cwd);
      OperandRun(c, piping, at, world);
      EvalRun(nodes, piping, at.cwd, piped, at.log, world);
      if |nodes| > 1 {
        if nodes[1] == Pipe {
          PipeKept(pipeline, i);
          SpawnKeepsPipe(c);
          EvalIsFlow(pipeline, i + 2, true, next, piped + [|at.log|], world);
        } else if Proceeds(if nodes[1] == And then AndThen else OrElse, next.code) {
          EvalIsFlow(pipeline, i + 2, false, next, [], world);
        } else {
          SteadyBehind(pipeline, i + 1);
          FlowStuck(pipeline, i + 2, false, next, world, nodes[1]);
        }
      }
    }
  }

  lemma StayStep(pipeline: seq<Node>, i: nat, cwd: string, cwd': string)
    requires FilesStay(pipeline) && StayFrom(pipeline, i, cwd) && i < |pipeline|
    ensures pipeline[i].Chdir? ==> StayFrom(pipeline, i + 2, cwd')
    ensures pipeline[i].Run? ==> StayFrom(pipeline, i + 2, cwd) && (cwd == "." || RootedFiles(pipeline[i].command))
  {
    hide RootedFiles;
  }

  lemma OperandRun(c: Command, piping: bool, at: Progress, world: World)
    ensures var log' := at.log + [PosixSpawn(c, piping, at.cwd, at.log)];
            Operand(Run(c), piping, at, world) == Progress(world(log', |at.log|), at.cwd, log')
  {
    var log' := at.log + [PosixSpawn(c, piping, at.cwd, at.log)];
    assert [c][1..] == [];
    assert StartPiped([c], piping, at.cwd, at.log) == StartPiped([], true, at.cwd, log');
  }

  lemma PipeKept(pipeline: seq<Node>, i: nat)
    requires WellFormed(pipeline) && i + 1 < |pipeline| && i % 2 == 0
    requires pipeline[i].Run? && pipeline[i + 1] == Pipe
    ensures pipeline[i].command.stdout == ToPipe
  {
    assert PositionOk(pipeline, i);
  }

  lemma SpawnKeepsPipe(c: Command)
    ensures forall stdin, cwd :: SpawnOf(c, stdin, cwd).stdout == c.stdout
  {
  }

  lemma SteadyBehind(pipeline: seq<Node>, i: nat)
    requires Steady(pipeline) && 0 < i < |pipeline| && Joins(pipeline[i]) && pipeline[i - 1].Run?
    ensures forall j :: i < j < |pipeline| && Joins(pipeline[j]) ==> pipeline[j] == pipeline[i]
  {
    forall j | i < j < |pipeline| && Joins(pipeline[j]) ensures pipeline[j] == pipeline[i] {
      assert !Clash(pipeline, i, j);
    }
  }

  // ----- a mixed line tells the readings apart ---------------------------------------------

  lemma OperandGrows(node: Node, piping: bool, at: Progress, world: World)
    ensures |Operand(node, piping, at, world).log| == |at.log| + if node.Run? then 1 else 0
  {
    if Alone(node).Piped? {
      StartPipedGrows(Alone(node).commands, piping, at.cwd, at.log);
    }
  }

  lemma {:induction false} FlowGrows(nodes: seq<Node>, go: bool, piping: bool, at: Progress, world: World)
    ensures |Flow(nodes, go, piping, at, world).log| >= |at.log|
    decreases |nodes|
  {
    hide Operand;
    if nodes != [] {
      OperandGrows(nodes[0], piping, at, world);
      if |nodes| > 2 {
        var next := if go then Operand(nodes[0], piping, at, world) else at;
        FlowGrows(nodes[2..], go, true, next, world);
        FlowGrows(nodes[2..], true, false, next, world);
        FlowGrows(nodes[2..], false, false, next, world);
      }
    }
  }

  /** An element that is run starts a process, or is a `cd` and the next one is run. */
  lemma {:induction false} FlowStarts(pipeline: seq<Node>, i: nat, piping: bool, at: Progress, world: World)
    requires WellFormed(pipeline) && Runnable(pipeline) && i < |pipeline| && i % 2 == 0
    ensures |Flow(pipeline[i..], true, piping, at, world).log| > |at.log|
    decreases |pipeline| - i
  {
    hide WellFormed;
    OperandAt(pipeline, i);
    var nodes := pipeline[i..];
    assert nodes[0] == pipeline[i];
    OperandGrows(nodes[0], piping, at, world);
    if |nodes| > 1 {
      assert nodes[1] == pipeline[i + 1] && nodes[2..] == pipeline[i + 2..];
      var next := Operand(nodes[0], piping, at, world);
      if nodes[0].Chdir? {
        assert next.code == 0;
        FlowStarts(pipeline, i + 2, false, next, world);
      } else {
        FlowGrows(nodes[2..], true, true, next, world);
        FlowGrows(nodes[2..], true, false, next, world);
        FlowGrows(nodes[2..], false, false, next, world);
      }
    }
  }

  /** What stops at an operator is taken up again by one of the other kind. */
  lemma {:induction false} FlowResumes(pipeline: seq<Node>, i: nat, piping: bool, at: Progress, world: World,
                                       op: Node, j: nat)
    requires WellFormed(pipeline) && Runnable(pipeline) && i % 2 == 0 && i < j < |pipeline|
    requires Joins(op) && !Proceeds(if op == And then AndThen else OrElse, at.code)
    requires Joins(pipeline[j]) && pipeline[j] != op
    ensures |Flow(pipeline[i..], false, piping, at, world).log| > |at.log|
    decreases |pipeline| - i
  {
    hide WellFormed, Operand;
    OperandAt(pipeline, i);
    var nodes := pipeline[i..];
    assert nodes[1] == pipeline[i + 1] && nodes[2..] == pipeline[i + 2..];
    if Joins(nodes[1]) && nodes[1] != op {
      FlowStarts(pipeline, i + 2, false, at, world);
    } else {
      OperandAt(pipeline, i + 2);
      FlowResumes(pipeline, i + 2, nodes[1] == Pipe, at, world, op, j);
    }
  }

  /** The first operator, other than a pipe, behind a command. */
  function FirstJoin(nodes: seq<Node>): Node {
    if |nodes| <= 2 then And
    else if nodes[0].Run? && nodes[1] != Pipe then nodes[1]
    else FirstJoin(nodes[2..])
  }

  /** Every process stops at that operator. */
  function StoppingWorld(op: Node): World {
    (log: Log, n: nat) => if op == And then 1 else 0
  }

  lemma JoinsAtOdd(pipeline: seq<Node>, j: nat)
    requires WellFormed(pipeline) && j < |pipeline| && Joins(pipeline[j])
    ensures j % 2 == 1
  {
    if j % 2 == 0 {
      OperandAt(pipeline, j);
    }
  }

  lemma FlowStep(nodes: seq<Node>, piping: bool, at: Progress, world: World)
    requires |nodes| > 2 && IsOp(nodes[1])
    requires nodes[0].Chdir? ==> nodes[0].dir.Some? && nodes[1] == And
    ensures var next := Operand(nodes[0], piping, at, world);
      Flow(nodes, true, piping, at, world) ==
      if nodes[0].Chdir? then Flow(nodes[2..], true, false, next, world)
      else if nodes[1] == Pipe then Flow(nodes[2..], true, true, next, world)
      else Flow(nodes[2..], Proceeds(if nodes[1] == And then AndThen else OrElse, next.code), false, next, world)
  {
  }

  lemma ClashHere(pipeline: seq<Node>, i: nat, piping: bool, cwd: string, piped: seq<nat>, log: Log,
                  into: bool, at: Progress, j: nat, world: World)
    requires WellFormed(pipeline) && Runnable(pipeline) && i % 2 == 0 && i + 2 < j < |pipeline|
    requires pipeline[i].Run? && Joins(pipeline[i + 1]) && Joins(pipeline[j]) && pipeline[j] != pipeline[i + 1]
    requires InPipe(piping, piped, log) && |log| == |at.log|
    requires world == StoppingWorld(pipeline[i + 1])
    ensures |Flow(pipeline[i..], true, into, at, world).log|
          > |Eval(pipeline[i..], piping, cwd, piped, log, world).log|
  {
    hide WellFormed, Operand, Eval, Flow, SpawnOf, Runnable;
    var nodes := pipeline[i..];
    assert nodes[0] == pipeline[i] && nodes[1] == pipeline[i + 1] && nodes[2..] == pipeline[i + 2..];
    var next := Operand(nodes[0], into, at, world);
    OperandRun(nodes[0].command, into, at, world);
    FlowStep(nodes, into, at, world);
    EvalRun(nodes, piping, cwd, piped, log, world);
    FlowResumes(pipeline, i + 2, false, next, world, nodes[1], j);
  }

  lemma ClashStep(pipeline: seq<Node>, i: nat, a: nat, b: nat)
    requires WellFormed(pipeline) && Runnable(pipeline) && i % 2 == 0
    requires i < a < b < |pipeline| && Clash(pipeline, a, b)
    ensures i + 2 < |pipeline| && IsOp(pipeline[i + 1])
    ensures pipeline[i].Run? || (pipeline[i].Chdir? && pipeline[i].dir.Some? && pipeline[i + 1] == And)
    ensures pipeline[i].Chdir? || pipeline[i + 1] == Pipe ==>
      i + 2 < a && FirstJoin(pipeline[i..]) == FirstJoin(pipeline[i + 2..])
    ensures pipeline[i].Run? && pipeline[i + 1] != Pipe ==>
      var j := if pipeline[a] != pipeline[i + 1] then a else b;
      && FirstJoin(pipeline[i..]) == pipeline[i + 1] && Joins(pipeline[i + 1])
      && i + 2 < j && Joins(pipeline[j]) && pipeline[j] != pipeline[i + 1]
  {
    hide WellFormed;
    OperandAt(pipeline, i);
    OperandAt(pipeline, i + 2);
    JoinsAtOdd(pipeline, a);
    JoinsAtOdd(pipeline, b);
    var nodes := pipeline[i..];
    assert nodes[0] == pipeline[i] && nodes[1] == pipeline[i + 1] && nodes[2..] == pipeline[i + 2..];
  }

  lemma {:induction false} ClashDiffers(pipeline: seq<Node>, i: nat, piping: bool, cwd: string, piped: seq<nat>,
                                        log: Log, into: bool, at: Progress, a: nat, b: nat, world: World)
    requires WellFormed(pipeline) && Runnable(pipeline) && i % 2 == 0
    requires i < a < b < |pipeline| && Clash(pipeline, a, b)
    requires InPipe(piping, piped, log) && |log| == |at.log|
    requires world == StoppingWorld(FirstJoin(pipeline[i..]))
    ensures |Flow(pipeline[i..], true, into, at, world).log|
          > |Eval(pipeline[i..], piping, cwd, piped, log, world).log|
    decreases |pipeline| - i
  {
    hide WellFormed, Operand, Eval, Flow, SpawnOf, StdinOf, PosixSpawn, JoinPath, FirstJoin, Clash, IsOp;
    ClashStep(pipeline, i, a, b);
    var nodes := pipeline[i..];
    assert nodes[0] == pipeline[i] && nodes[1] == pipeline[i + 1] && nodes[2..] == pipeline[i + 2..];
    var next := Operand(nodes[0], into, at, world);
    OperandGrows(nodes[0], into, at, world);
    FlowStep(nodes, into, at, world);
    if nodes[0].Chdir? {
      EvalCd(nodes, piping, cwd, piped, log, world);
      ClashDiffers(pipeline, i + 2, piping, JoinPath(cwd, nodes[0].dir.value), piped, log, false, next, a, b, world);
    } else if nodes[1] == Pipe {
      var c := nodes[0].command;
      var log' := log + [SpawnOf(c, if piping then FromProcess(|log| - 1) else StdinOf(c), cwd)];
      EvalRun(nodes, piping, cwd, piped, log, world);
      PipeKept(pipeline, i);
      SpawnKeepsPipe(c);
      ClashDiffers(pipeline, i + 2, true, cwd, piped + [|log|], log', true, next, a, b, world);
    } else {
      ClashHere(pipeline, i, piping, cwd, piped, log, into, at, if pipeline[a] != nodes[1] then a else b, world);
    }
  }

  // ----- a pipe that feeds nothing tells them apart ---------------------------------------------

  /** How many processes read from another one. */
  function Fed(log: Log): nat {
    if log == [] then 0
    else Fed(log[..|log| - 1]) + if log[|log| - 1].stdin.FromProcess? then 1 else 0
  }

  function Pipes(nodes: seq<Node>): nat {
    if |nodes| <= 2 then 0 else Pipes(nodes[2..]) + if nodes[1] == Pipe then 1 else 0
  }

  /** The pipes that lead into a command without an input of its own. */
  function FeedingPipes(nodes: seq<Node>, piping: bool): nat {
    if nodes == [] then 0
    else
      (if piping && Takes(nodes[0]) then 1 else 0) +
      if |nodes| <= 2 then 0 else FeedingPipes(nodes[2..], nodes[1] == Pipe)
  }

  lemma FedMore(log: Log, spawn: Spawn)
    ensures Fed(log + [spawn]) == Fed(log) + if spawn.stdin.FromProcess? then 1 else 0
  {
    assert (log + [spawn])[..|log|] == log;
  }

  lemma {:induction false} FeedingBound(nodes: seq<Node>, piping: bool)
    ensures FeedingPipes(nodes, piping) <= Pipes(nodes) + if piping then 1 else 0
    decreases |nodes|
  {
    if |nodes| > 2 {
      FeedingBound(nodes[2..], nodes[1] == Pipe);
    }
  }

  lemma {:induction false} FeedingLess(pipeline: seq<Node>, i: nat, piping: bool, j: nat)
    requires WellFormed(pipeline) && i % 2 == 0 && i < j < |pipeline| - 1
    requires pipeline[j] == Pipe && !Takes(pipeline[j + 1])
    ensures FeedingPipes(pipeline[i..], piping) < Pipes(pipeline[i..]) + if piping then 1 else 0
    decreases |pipeline| - i
  {
    hide WellFormed;
    OperandAt(pipeline, i);
    var nodes := pipeline[i..];
    assert nodes[0] == pipeline[i] && nodes[1] == pipeline[i + 1] && nodes[2..] == pipeline[i + 2..];
    if j == i + 1 {
      assert nodes[2] == pipeline[j + 1];
      FeedingBound(nodes[2..], true);
      FeedingLessHere(nodes[2..]);
    } else {
      OperandAt(pipeline, i + 2);
      FeedingLess(pipeline, i + 2, nodes[1] == Pipe, j);
    }
  }

  lemma FeedingLessHere(nodes: seq<Node>)
    requires nodes != [] && !Takes(nodes[0])
    ensures FeedingPipes(nodes, true) <= Pipes(nodes)
  {
    if |nodes| > 2 {
      FeedingBound(nodes[2..], nodes[1] == Pipe);
    }
  }

  lemma {:induction false} FlowFeeds(nodes: seq<Node>, go: bool, piping: bool, at: Progress, world: World)
    ensures Fed(Flow(nodes, go, piping, at, world).log) <= Fed(at.log) + FeedingPipes(nodes, piping)
    decreases |nodes|
  {
    hide Fed, Takes;
    if nodes != [] {
      OperandFeeds(nodes[0], piping, at, world);
      hide Operand;
      if |nodes| > 2 {
        var next := if go then Operand(nodes[0], piping, at, world) else at;
        if nodes[1] == Pipe {
          FlowFeeds(nodes[2..], go, true, next, world);
        } else {
          FlowFeeds(nodes[2..], true, false, next, world);
          FlowFeeds(nodes[2..], false, false, next, world);
        }
      }
    }
  }

  lemma OperandFeeds(node: Node, piping: bool, at: Progress, world: World)
    ensures Fed(Operand(node, piping, at, world).log) <= Fed(at.log) + if piping && Takes(node) then 1 else 0
  {
    if node.Run? {
      OperandRun(node.command, piping, at, world);
      FedMore(at.log, PosixSpawn(node.command, piping, at.cwd, at.log));
    }
  }

  lemma {:induction false} EvalFeeds(pipeline: seq<Node>, i: nat, piping: bool, cwd: string, piped: seq<nat>,
                                     log: Log, world: World)
    requires WellFormed(pipeline) && Runnable(pipeline) && i < |pipeline| && i % 2 == 0
    requires InPipe(piping, piped, log)
    requires Answers(world, ProceedCodes(pipeline[i..]), |log|)
    ensures Fed(Eval(pipeline[i..], piping, cwd, piped, log, world).log)
         == Fed(log) + Pipes(pipeline[i..]) + if piping then 1 else 0
    decreases |pipeline| - i
  {
    hide WellFormed, Eval, Fed, SpawnOf, Answers, ProceedCodes;
    OperandAt(pipeline, i);
    var nodes := pipeline[i..];
    assert nodes[0] == pipeline[i];
    if |nodes| > 1 {
      assert nodes[1] == pipeline[i + 1] && nodes[2..] == pipeline[i + 2..];
      ProceedCodesSkip(nodes);
    }
    if nodes[0].Chdir? {
      EvalCd(nodes, piping, cwd, piped, log, world);
      assert ProceedCodes(nodes) == ProceedCodes(pipeline[i + 2..]);
      EvalFeeds(pipeline, i + 2, piping, JoinPath(cwd, nodes[0].dir.value), piped, log, world);
    } else {
      var c := nodes[0].command;
      var spawn := SpawnOf(c, if piping then FromProcess(|log| - 1) else StdinOf(c), cwd);
      SpawnInput(c, piping, cwd, log);
      FedMore(log, spawn);
      EvalRun(nodes, piping, cwd, piped, log, world);
      if |nodes| > 1 {
        AnswersTail(world, if nodes[1] == Or then 1 else 0, ProceedCodes(nodes[2..]), |log|);
        if nodes[1] == Pipe {
          PipeKept(pipeline, i);
          SpawnKeepsPipe(c);
          EvalFeeds(pipeline, i + 2, true, cwd, piped + [|log|], log + [spawn], world);
        } else {
          EvalFeeds(pipeline, i + 2, false, cwd, [], log + [spawn], world);
        }
      }
    }
  }

  lemma SpawnInput(c: Command, piping: bool, cwd: string, log: Log)
    requires piping ==> log != []
    ensures SpawnOf(c, if piping then FromProcess(|log| - 1) else StdinOf(c), cwd).stdin.FromProcess? <==> piping
  {
  }

  // ----- a relative path behind a cd tells them apart --------------------------------------

  /** The directories that the line can get to from the one it starts in. */
  predicate Reached(cwd: string) {
    cwd == "." || Rooted(cwd) || "./" <= cwd
  }

  lemma JoinMoves(cwd: string, dir: string)
    requires Reached(cwd)
    ensures Reached(JoinPath(cwd, dir)) && JoinPath(cwd, dir) != "."
  {
    if cwd == "." {
      assert "./" <= "." + "/" + dir;
    } else if "./" <= cwd {
      assert cwd == "./" + cwd[2..];
      assert cwd + dir == "./" + (cwd[2..] + dir);
      assert cwd + "/" + dir == "./" + (cwd[2..] + "/" + dir);
    }
  }

  lemma SpawnMoves(c: Command, piping: bool, cwd: string, log: Log)
    requires Reached(cwd) && cwd != "." && !RootedFiles(c) && (piping ==> c.stdin == None && log != [])
    ensures PosixSpawn(c, piping, cwd, log)
         != SpawnOf(c, if piping then FromProcess(|log| - 1) else StdinOf(c), cwd)
  {
    forall name: string | !Rooted(name) ensures |Place(name, cwd)| > |name| {
    }
  }

  lemma {:induction false} EvalExtends(nodes: seq<Node>, piping: bool, cwd: string, piped: seq<nat>, log: Log,
                                       world: World)
    requires Known(piped, log) && (piping ==> piped != [])
    ensures log <= Eval(nodes, piping, cwd, piped, log, world).log
    decreases |nodes|
  {
    hide GroupCode, ExitCodes, SpawnOf, PipedInput;
    if |nodes| > 1 {
      if nodes[0].Chdir? {
        if nodes[1] == And && nodes[0].dir.Some? {
          EvalExtends(nodes[2..], piping, JoinPath(cwd, nodes[0].dir.value), piped, log, world);
        }
      } else if nodes[0].Run? {
        var c := nodes[0].command;
        var log' := log + [SpawnOf(c, if piping then PipedInput(piped, log) else StdinOf(c), cwd)];
        EvalExtends(nodes[2..], true, cwd, piped + [|log|], log', world);
        EvalExtends(nodes[2..], false, cwd, [], log', world);
        EvalExtends(nodes[2..], piping, cwd, piped + [|log|], log', world);
      }
    }
  }

  lemma {:induction false} FlowExtends(nodes: seq<Node>, go: bool, piping: bool, at: Progress, world: World)
    ensures at.log <= Flow(nodes, go, piping, at, world).log
    decreases |nodes|
  {
    if nodes != [] {
      OperandExtends(nodes[0], piping, at, world);
      hide Operand;
      if |nodes| > 2 {
        var next := if go then Operand(nodes[0], piping, at, world) else at;
        FlowExtends(nodes[2..], go, true, next, world);
        FlowExtends(nodes[2..], true, false, next, world);
        FlowExtends(nodes[2..], false, false, next, world);
      }
    }
  }

  lemma OperandExtends(node: Node, piping: bool, at: Progress, world: World)
    ensures at.log <= Operand(node, piping, at, world).log
  {
    if node.Run? {
      OperandRun(node.command, piping, at, world);
    }
  }

  lemma MovedHere(nodes: seq<Node>, piping: bool, at: Progress, piped: seq<nat>, log: Log, world: World)
    requires nodes != [] && nodes[0].Run? && (|nodes| == 1 || (|nodes| > 2 && IsOp(nodes[1])))
    requires InPipe(piping, piped, log) && |log| == |at.log|
    requires Reached(at.cwd) && at.cwd != "." && !RootedFiles(nodes[0].command) && (piping ==> Takes(nodes[0]))
    ensures Eval(nodes, piping, at.cwd, piped, log, world).log != Flow(nodes, true, piping, at, world).log
  {
    hide Eval, Flow, SpawnOf, PosixSpawn, Operand, RootedFiles, Reached;
    var c := nodes[0].command;
    var spawn := SpawnOf(c, if piping then FromProcess(|log| - 1) else StdinOf(c), at.cwd);
    var moved := PosixSpawn(c, piping, at.cwd, at.log);
    SpawnMoves(c, piping, at.cwd, at.log);
    EvalHead(nodes, piping, at.cwd, piped, log, world);
    FlowHead(nodes, piping, at, world);
    assert (log + [spawn])[|log|] == spawn && (at.log + [moved])[|log|] == moved;
    assert Eval(nodes, piping, at.cwd, piped, log, world).log[|log|] == spawn;
    assert Flow(nodes, true, piping, at, world).log[|log|] == moved;
  }

  lemma EvalHead(nodes: seq<Node>, piping: bool, cwd: string, piped: seq<nat>, log: Log, world: World)
    requires nodes != [] && nodes[0].Run? && (|nodes| == 1 || (|nodes| > 2 && IsOp(nodes[1])))
    requires InPipe(piping, piped, log)
    ensures var c := nodes[0].command;
      log + [SpawnOf(c, if piping then FromProcess(|log| - 1) else StdinOf(c), cwd)]
      <= Eval(nodes, piping, cwd, piped, log, world).log
  {
    hide Eval, SpawnOf;
    var c := nodes[0].command;
    var log' := log + [SpawnOf(c, if piping then FromProcess(|log| - 1) else StdinOf(c), cwd)];
    EvalRun(nodes, piping, cwd, piped, log, world);
    if |nodes| > 1 {
      EvalExtends(nodes[2..], true, cwd, piped + [|log|], log', world);
      EvalExtends(nodes[2..], false, cwd, [], log', world);
    }
  }

  lemma FlowHead(nodes: seq<Node>, piping: bool, at: Progress, world: World)
    requires nodes != [] && nodes[0].Run? && (|nodes| == 1 || (|nodes| > 2 && IsOp(nodes[1])))
    ensures at.log + [PosixSpawn(nodes[0].command, piping, at.cwd, at.log)]
         <= Flow(nodes, true, piping, at, world).log
  {
    hide PosixSpawn, Operand;
    OperandRun(nodes[0].command, piping, at, world);
    var next := Operand(nodes[0], piping, at, world);
    if |nodes| > 1 {
      FlowStep(nodes, piping, at, world);
      hide Flow;
      FlowExtends(nodes[2..], true, true, next, world);
      FlowExtends(nodes[2..], true, false, next, world);
      FlowExtends(nodes[2..], false, false, next, world);
    }
  }

  /** When everything is run, a relative path behind a `cd` is opened in different places. */
  lemma {:induction false} FilesDiffer(pipeline: seq<Node>, i: nat, piping: bool, at: Progress, piped: seq<nat>,
                                       log: Log, a: nat, b: nat, world: World)
    requires WellFormed(pipeline) && Runnable(pipeline) && PipesFeed(pipeline) && i % 2 == 0
    requires i <= b < |pipeline| && pipeline[b].Run? && !RootedFiles(pipeline[b].command)
    requires at.cwd != "." || (i <= a < b && pipeline[a].Chdir?)
    requires InPipe(piping, piped, log) && |log| == |at.log| && (piping ==> Takes(pipeline[i])) && Reached(at.cwd)
    requires Answers(world, ProceedCodes(pipeline[i..]), |log|)
    ensures Eval(pipeline[i..], piping, at.cwd, piped, log, world).log
         != Flow(pipeline[i..], true, piping, at, world).log
    decreases |pipeline| - i
  {
    hide WellFormed, Eval, Flow, SpawnOf, PosixSpawn, Operand, Answers, ProceedCodes, RootedFiles, JoinPath, Reached;
    OperandAt(pipeline, i);
    var nodes := pipeline[i..];
    assert nodes[0] == pipeline[i];
    if |nodes| > 1 {
      assert nodes[1] == pipeline[i + 1] && nodes[2..] == pipeline[i + 2..];
      ProceedCodesSkip(nodes);
      FlowStep(nodes, piping, at, world);
    }
    if i == b {
      MovedHere(nodes, piping, at, piped, log, world);
    } else if nodes[0].Chdir? {
      var d := nodes[0].dir.value;
      JoinMoves(at.cwd, d);
      EvalCd(nodes, piping, at.cwd, piped, log, world);
      ChangeOperand(d, at, world);
      assert ProceedCodes(nodes) == ProceedCodes(pipeline[i + 2..]);
      FilesDiffer(pipeline, i + 2, false, Progress(0, JoinPath(at.cwd, d), at.log), piped, log, a, b, world);
    } else {
      var c := nodes[0].command;
      var spawn := SpawnOf(c, if piping then FromProcess(|log| - 1) else StdinOf(c), at.cwd);
      var next := Operand(nodes[0], piping, at, world);
      AnswersTail(world, if nodes[1] == Or then 1 else 0, ProceedCodes(nodes[2..]), |log|);
      EvalRun(nodes, piping, at.cwd, piped, log, world);
      OperandRun(c, piping, at, world);
      PipeStarts(pipeline, i);
      SpawnKeepsPipe(c);
      FilesDiffer(pipeline, i + 2, nodes[1] == Pipe, next, if nodes[1] == Pipe then piped + [|log|] else [],
                  log + [spawn], a, b, world);
    }
  }

  lemma ChangeOperand(dir: string, at: Progress, world: World)
    ensures Operand(Chdir(Some(dir)), false, at, world) == Progress(0, JoinPath(at.cwd, dir), at.log)
  {
  }

  lemma PipeStarts(pipeline: seq<Node>, i: nat)
    requires WellFormed(pipeline) && PipesFeed(pipeline) && i + 2 < |pipeline| && i % 2 == 0 && pipeline[i].Run?
    ensures pipeline[i + 1] == Pipe ==> pipeline[i].command.stdout == ToPipe && Takes(pipeline[i + 2])
  {
    assert PositionOk(pipeline, i);
  }

  // ----- the comparison ---------------------------------------------------------------

  ghost predicate AgreesWithPosix(pipeline: seq<Node>) {
    PipesFeed(pipeline) && Steady(pipeline) && FilesStay(pipeline)
  }

  /** `run` does what POSIX says in every world, with the same exit code and the same processes in the same
      order, each with the same input, outputs and directory, if and only if every pipe leads into a command
      without an input of its own, no operator behind a command is followed by one of the other kind, and no
      relative path is opened behind a `cd`. */
  lemma RunIsPosixIff(pipeline: seq<Node>)
    requires WellFormed(pipeline) && Runnable(pipeline)
    ensures AgreesWithPosix(pipeline) <==>
      forall world: World :: EvalPipeline(pipeline, world) == ResultOf(PosixReading(pipeline, world))
  {
    hide Alternates, Eval, Flow, PosixReading, PositionOk, PipesFeed, Steady, FilesStay;
    assert pipeline[0..] == pipeline;
    WellFormedAlternates(pipeline);
    if AgreesWithPosix(pipeline) {
      forall world: World ensures EvalPipeline(pipeline, world) == ResultOf(PosixReading(pipeline, world)) {
        ReadingIsFlow(pipeline, world);
        EvalIsFlow(pipeline, 0, false, AT_START, [], world);
      }
    } else {
      var world := TellingWorld(pipeline);
      assert EvalPipeline(pipeline, world) != ResultOf(PosixReading(pipeline, world));
    }
  }

  lemma TellingWorld(pipeline: seq<Node>) returns (world: World)
    requires WellFormed(pipeline) && Runnable(pipeline) && !AgreesWithPosix(pipeline)
    ensures EvalPipeline(pipeline, world).log != PosixReading(pipeline, world).log
  {
    hide Alternates, Eval, Flow, PosixReading, PositionOk;
    assert pipeline[0..] == pipeline;
    WellFormedAlternates(pipeline);
    if Steady(pipeline) {
      var codes := ProceedCodes(pipeline);
      world := (log: Log, n: nat) => if n < |codes| then codes[n] else 0;
      ReadingIsFlow(pipeline, world);
      if PipesFeed(pipeline) {
        var a, b :| 0 <= a < b < |pipeline| && pipeline[a].Chdir? && pipeline[b].Run?
          && !RootedFiles(pipeline[b].command);
        FilesDiffer(pipeline, 0, false, AT_START, [], [], a, b, world);
      } else {
        var j :| 0 <= j < |pipeline| - 1 && pipeline[j] == Pipe && !Takes(pipeline[j + 1]);
        PipeAtOdd(pipeline, j);
        EvalFeeds(pipeline, 0, false, ".", [], [], world);
        FlowFeeds(pipeline, true, false, AT_START, world);
        FeedingLess(pipeline, 0, false, j);
      }
    } else {
      var a: nat, b: nat :| 0 < a < b < |pipeline| && Clash(pipeline, a, b);
      world := StoppingWorld(FirstJoin(pipeline));
      ReadingIsFlow(pipeline, world);
      ClashDiffers(pipeline, 0, false, ".", [], [], false, AT_START, a, b, world);
    }
  }

  lemma PipeAtOdd(pipeline: seq<Node>, j: nat)
    requires WellFormed(pipeline) && j < |pipeline| && pipeline[j] == Pipe
    ensures j % 2 == 1
  {
    if j % 2 == 0 {
      OperandAt(pipeline, j);
    }
  }

  // ----- lines on which they differ, and one on which they do not ---------------------------

  const ALL_ZERO: World := (log: Log, n: nat) => 0

  /** `a || e && c` with all codes 0, whatever `e` is: read from the left, `a` and `c` run. */
  lemma OrThenAndReading(a: Command, e: Element, c: Command)
    ensures LeftNested(Piped([a], None), [(OrElse, e), (AndThen, Piped([c], None))], ALL_ZERO).log
         == [SpawnOf(a, StdinOf(a), "."), SpawnOf(c, StdinOf(c), ".")]
  {
    hide RunElement, RunPart, LeftNested;
    var first, last := Piped([a], None), Piped([c], None);
    var rest := [(OrElse, e), (AndThen, last)];
    LeftNestedIsFold(first, rest, ALL_ZERO);
    OneCommandRuns(a, AT_START, ALL_ZERO);
    var done := RunElement(first, AT_START, ALL_ZERO);
    OneCommandRuns(c, done, ALL_ZERO);
    assert rest[1..] == [(AndThen, last)] && rest[1..][1..] == [];
    assert Fold(done, rest, ALL_ZERO) == Fold(done, rest[1..], ALL_ZERO);
    assert Fold(done, rest[1..], ALL_ZERO) == Fold(RunElement(last, done, ALL_ZERO), [], ALL_ZERO);
  }

  lemma OneCommandRuns(c: Command, at: Progress, world: World)
    requires at.cwd == "." || RootedFiles(c)
    ensures var log' := at.log + [SpawnOf(c, StdinOf(c), at.cwd)];
            RunElement(Piped([c], None), at, world) == Progress(world(log', |at.log|), at.cwd, log')
  {
    OperandRun(c, false, at, world);
    PlacedSame(c, at.cwd);
  }

  lemma ElementsLast(node: Node)
    ensures Elements([node]) == (Alone(node), [])
  {
  }

  lemma ElementsStep(node: Node, op: Node, tail: seq<Node>)
    requires tail != []
    ensures var (next, rest) := Elements(tail);
      Elements([node, op] + tail) ==
      if op == Pipe then (PipedInto(node, next), rest)
      else (Alone(node), [(if op == And then AndThen else OrElse, next)] + rest)
  {
    assert ([node, op] + tail)[2..] == tail;
  }

  lemma ElementsOfThree(a: Node, op: Node, x: Node, b: Node)
    ensures Elements([a, op, x, And, b]) ==
      if op == Pipe then (PipedInto(a, Alone(x)), [(AndThen, Alone(b))])
      else (Alone(a), [(if op == And then AndThen else OrElse, Alone(x)), (AndThen, Alone(b))])
  {
    hide Elements, Alone, PipedInto;
    var tail := [x, And, b];
    ElementsLast(b);
    ElementsStep(x, And, [b]);
    assert tail == [x, And] + [b];
    var rest := [(AndThen, Alone(b))];
    assert rest + [] == rest;
    ElementsStep(a, op, tail);
    assert [a, op, x, And, b] == [a, op] + tail;
    assert [(OrElse, Alone(x))] + rest == [(OrElse, Alone(x)), (AndThen, Alone(b))];
    assert [(AndThen, Alone(x))] + rest == [(AndThen, Alone(x)), (AndThen, Alone(b))];
  }

  /** `a || b && c`, all codes 0: `run` stops after `a`; POSIX goes on with `c`. */
  lemma MixedExample(a: Command, b: Command, c: Command)
    ensures var line := [Run(a), Or, Run(b), And, Run(c)];
      var first := Spawn(a.argv, StdinOf(a), a.stdout, a.stderr, a.envVars, None);
      var second := Spawn(c.argv, StdinOf(c), c.stdout, c.stderr, c.envVars, None);
      && EvalPipeline(line, ALL_ZERO).log == [first]
      && PosixReading(line, ALL_ZERO).log == [first, second]
  {
    hide LeftNested, Eval, Elements;
    var line := [Run(a), Or, Run(b), And, Run(c)];
    EvalRun(line, false, ".", [], [], ALL_ZERO);
    OrThenAndReading(a, Piped([b], None), c);
    ElementsOfThree(Run(a), Or, Run(b), Run(c));
  }

  /** `a || cd x && b`, all codes 0: `run` stops after `a`; POSIX goes on with `b`. */
  lemma CdBehindOrExample(a: Command, b: Command)
    ensures var line := [Run(a), Or, Chdir(Some("x")), And, Run(b)];
      var first := Spawn(a.argv, StdinOf(a), a.stdout, a.stderr, a.envVars, None);
      var second := Spawn(b.argv, StdinOf(b), b.stdout, b.stderr, b.envVars, None);
      && EvalPipeline(line, ALL_ZERO).log == [first]
      && PosixReading(line, ALL_ZERO).log == [first, second]
  {
    hide LeftNested, Eval, Elements;
    var line := [Run(a), Or, Chdir(Some("x")), And, Run(b)];
    EvalRun(line, false, ".", [], [], ALL_ZERO);
    OrThenAndReading(a, Change("x"), b);
    ElementsOfThree(Run(a), Or, Chdir(Some("x")), Run(b));
  }

  /** `a | cd x && b`: `run` lets `b` read from `a`, in the directory `./x`; in POSIX `b` is a list element
      of its own, and the `cd` has changed nothing. */
  lemma CdBehindPipeExample(a: Command, b: Command)
    requires a.stdout == ToPipe
    ensures var line := [Run(a), Pipe, Chdir(Some("x")), And, Run(b)];
      var first := Spawn(a.argv, StdinOf(a), a.stdout, a.stderr, a.envVars, None);
      var ranSecond := Spawn(b.argv, FromProcess(0), b.stdout, b.stderr, b.envVars, Some("./x"));
      var posixSecond := Spawn(b.argv, StdinOf(b), b.stdout, b.stderr, b.envVars, None);
      && EvalPipeline(line, ALL_ZERO).log == [first, ranSecond]
      && PosixReading(line, ALL_ZERO).log == [first, posixSecond]
  {
    hide Elements, Eval, LeftNested, RunElement, RunPart;
    var none: seq<nat> := [];
    var line := [Run(a), Pipe, Chdir(Some("x")), And, Run(b)];
    var log := [SpawnOf(a, StdinOf(a), ".")];
    assert line[2..] == [Chdir(Some("x")), And, Run(b)] && line[2..][2..] == [Run(b)];
    EvalRun(line, false, ".", none, [], ALL_ZERO);
    assert [] + log == log && none + [0] == [0];
    assert JoinPath(".", "x") == "./x";
    assert line[2..][2..] == [Run(b)];
    EvalCd(line[2..], true, ".", [0], log, ALL_ZERO);
    EvalRun([Run(b)], true, "./x", [0], log, ALL_ZERO);
    PipeIntoCdReading(a, b);
    ElementsOfThree(Run(a), Pipe, Chdir(Some("x")), Run(b));
  }

  lemma PipeIntoCdReading(a: Command, b: Command)
    ensures LeftNested(Piped([a], Some("x")), [(AndThen, Piped([b], None))], ALL_ZERO).log
         == [SpawnOf(a, StdinOf(a), "."), SpawnOf(b, StdinOf(b), ".")]
  {
    hide LeftNested, StartPiped;
    var first, last := Piped([a], Some("x")), Piped([b], None);
    var rest := [(AndThen, last)];
    LeftNestedIsFold(first, rest, ALL_ZERO);
    OneCommandRuns(a, AT_START, ALL_ZERO);
    var done := RunElement(first, AT_START, ALL_ZERO);
    assert done == Progress(0, ".", [SpawnOf(a, StdinOf(a), ".")]);
    OneCommandRuns(b, done, ALL_ZERO);
    assert rest[1..] == [];
    assert Fold(done, rest, ALL_ZERO) == Fold(RunElement(last, done, ALL_ZERO), [], ALL_ZERO);
  }

  /** `a | b < f`: `run` ignores the redirection, which POSIX puts before the pipe. */
  lemma RedirectedBehindPipeExample(a: Command, b: Command, f: string)
    requires a.stdout == ToPipe && b.stdin == Some(f)
    ensures var line := [Run(a), Pipe, Run(b)];
      var first := Spawn(a.argv, StdinOf(a), a.stdout, a.stderr, a.envVars, None);
      var ranSecond := Spawn(b.argv, FromProcess(0), b.stdout, b.stderr, b.envVars, None);
      var posixSecond := Spawn(b.argv, FromFile(f), b.stdout, b.stderr, b.envVars, None);
      && EvalPipeline(line, ALL_ZERO).log == [first, ranSecond]
      && PosixReading(line, ALL_ZERO).log == [first, posixSecond]
  {
    hide Elements, Eval;
    var none: seq<nat> := [];
    var line := [Run(a), Pipe, Run(b)];
    var log := [SpawnOf(a, StdinOf(a), ".")];
    assert line[2..] == [Run(b)];
    EvalRun(line, false, ".", none, [], ALL_ZERO);
    assert [] + log == log && none + [0] == [0];
    EvalRun([Run(b)], true, ".", [0], log, ALL_ZERO);
    ElementsLast(Run(b));
    ElementsStep(Run(a), Pipe, [Run(b)]);
    assert line == [Run(a), Pipe] + [Run(b)] && [a] + [b] == [a, b];
    assert [a, b][1..] == [b] && [b][1..] == [];
    assert StartPiped([a, b], false, ".", []) == StartPiped([b], true, ".", log);
    assert StartPiped([b], true, ".", log) == StartPiped([], true, ".", log + [SpawnOf(b, FromFile(f), ".")]);
  }

  /** `cd x && a < f`: `run` opens `f` where the script runs, POSIX in the directory `./x`. */
  lemma RedirectedBehindCdExample(a: Command, f: string)
    requires a.stdin == Some(f) && a.stdout == Inherit && a.stderr == Inherit && !Rooted(f)
    ensures var line := [Chdir(Some("x")), And, Run(a)];
      var ranFirst := Spawn(a.argv, FromFile(f), a.stdout, a.stderr, a.envVars, Some("./x"));
      var posixFirst := Spawn(a.argv, FromFile("./x/" + f), a.stdout, a.stderr, a.envVars, Some("./x"));
      && EvalPipeline(line, ALL_ZERO).log == [ranFirst]
      && PosixReading(line, ALL_ZERO).log == [posixFirst]
  {
    hide Eval, LeftNested, Elements;
    var line := [Chdir(Some("x")), And, Run(a)];
    assert JoinPath(".", "x") == "./x" && "./x" + "/" == "./x/";
    assert line[2..] == [Run(a)];
    EvalCd(line, false, ".", [], [], ALL_ZERO);
    EvalRun([Run(a)], false, "./x", [], [], ALL_ZERO);
    ElementsLast(Run(a));
    ElementsStep(Chdir(Some("x")), And, [Run(a)]);
    assert line == [Chdir(Some("x")), And] + [Run(a)];
    var first, last := Change("x"), Piped([a], None);
    var rest := [(AndThen, last)];
    assert rest + [] == rest && rest[1..] == [];
    LeftNestedIsFold(first, rest, ALL_ZERO);
    var done := RunElement(first, AT_START, ALL_ZERO);
    assert done == Progress(0, "./x", []);
    OperandRun(a, false, done, ALL_ZERO);
    assert Fold(done, rest, ALL_ZERO) == Fold(RunElement(last, done, ALL_ZERO), [], ALL_ZERO);
  }

  /** `cd x && a || b` has two kinds of operators, and yet the readings agree, if no relative path is opened. */
  lemma CdInFrontExample(a: Command, b: Command, world: World)
    requires CommandOk(a) && a.stdout != ToPipe && RootedFiles(a)
    requires CommandOk(b) && b.stdout != ToPipe && RootedFiles(b)
    ensures var line := [Chdir(Some("x")), And, Run(a), Or, Run(b)];
      EvalPipeline(line, world) == ResultOf(PosixReading(line, world))
  {
    hide CommandOk, Eval, PosixReading;
    var line := [Chdir(Some("x")), And, Run(a), Or, Run(b)];
    assert WellFormed(line);
    assert Runnable(line);
    assert PipesFeed(line) && Steady(line) && FilesStay(line);
    RunIsPosixIff(line);
  }
}
