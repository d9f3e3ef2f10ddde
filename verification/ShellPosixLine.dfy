/** Command lines, token by token, as a POSIX shell reads them: redirections take effect in the order in which
    they are written, so `2>&1` means the stdout of that moment. */
module ShellPosixLine {
  import opened Results
  import opened ShellSyntax
  import opened ShellSemantics
  import opened ShellPosix

  // ----- the reading of a line --------------------------------------------------

  /** An assignment word, by rule 7 of section 2.10.2 of the POSIX Shell Command Language. */
  predicate IsAssignment(token: string) {
    var k := FirstEquals(token);
    k < |token| && IsEnvName(token[..k]) && !('0' <= token[0] <= '9')
  }

  /** Whether a token in front of a command name is an assignment, with the same name and value, to both. */
  predicate SameAssignment(token: string) {
    if IsAssignment(token) then
      var k := FirstEquals(token);
      EnvMatch(token) == Some((token[..k], token[k + 1..]))
    else EnvMatch(token) == None
  }

  /** Whether POSIX sees the token as the same kind of thing: a word has to stand for a command name, a file and
      a directory. */
  predicate SameKind(mode: Mode, token: string) {
    match mode
    case Begin => !IsOperatorToken(token) && SameAssignment(token)
    case InCommand => true
    case InChdir => token == "&&" || !IsOperatorToken(token)
    case _ => !IsOperatorToken(token)
  }

  /** The command keeps where its stderr goes when its stdout is redirected later. */
  function OutRedirected(node: Node): Node {
    if node.Run? && node.command.stderr == ToStdout then Run(node.command.(stderr := ToShellStdout)) else node
  }

  function PosixStep(p: Parser, token: string): (r: Option<Parser>)
    requires Fits(p)
    ensures r.Some? ==> Fits(r.value)
  {
    var next := Step(p, token);
    if next.Err? || !SameKind(p.mode, token) then None
    else if p.mode == InStdout then Some(next.value.(current := Some(OutRedirected(next.value.current.value))))
    else Some(next.value)
  }

  function PosixFeed(p: Parser, tokens: seq<string>): (r: Option<Parser>)
    requires Fits(p)
    ensures r.Some? ==> Fits(r.value)
    decreases |tokens|
  {
    if tokens == [] then Some(p)
    else
      var next := PosixStep(p, tokens[0]);
      if next.Some? then PosixFeed(next.value, tokens[1..]) else None
  }

  function PosixFinish(p: Parser): Option<seq<Node>> {
    if p.current.Some? && (p.mode == InCommand || p.mode == InChdir) then Some(p.pipeline + [p.current.value]) else None
  }

  /** The line as POSIX reads it; `None` if it does not divide it into the same words, assignments and operators. */
  function PosixLine(tokens: seq<string>): Option<seq<Node>> {
    var p := PosixFeed(START, tokens);
    if p.Some? then PosixFinish(p.value) else None
  }

  // ----- the parser reads the same, but for the order --------------------------------

  function Forget(node: Node): Node {
    if node.Run? && node.command.stderr == ToShellStdout then Run(node.command.(stderr := ToStdout)) else node
  }

  function ForgetAll(nodes: seq<Node>): seq<Node> {
    seq(|nodes|, i requires 0 <= i < |nodes| => Forget(nodes[i]))
  }

  function ForgetIn(p: Parser): Parser {
    p.(current := if p.current.Some? then Some(Forget(p.current.value)) else None, pipeline := ForgetAll(p.pipeline))
  }

  lemma ForgetConcat(a: seq<Node>, b: seq<Node>)
    ensures ForgetAll(a + b) == ForgetAll(a) + ForgetAll(b)
  {
  }

  lemma ForgetPair(p: Parser, node: Node, op: Node)
    requires IsOp(op)
    ensures ForgetIn(WithOp(p, node, op)) == WithOp(ForgetIn(p), Forget(node), op)
  {
    ForgetConcat(p.pipeline, [node, op]);
    assert ForgetAll([node, op]) == [Forget(node), op];
  }

  lemma CommandForgets(p: Parser, c: Command, token: string)
    requires p.mode == InCommand && p.current == Some(Run(c)) && CommandToken(p, c, token).Ok?
    ensures Forget(Run(c)).Run?
    ensures CommandToken(ForgetIn(p), Forget(Run(c)).command, token) == Ok(ForgetIn(CommandToken(p, c, token).value))
  {
    hide ForgetAll;
    if token == "|" {
      ForgetPair(p, Run(c.(stdout := ToPipe)), Pipe);
    } else if token == "&&" {
      ForgetPair(p, Run(c), And);
    } else if token == "||" {
      ForgetPair(p, Run(c), Or);
    }
  }

  lemma StepForgets(p: Parser, token: string)
    requires Fits(p) && PosixStep(p, token).Some?
    ensures Fits(ForgetIn(p)) && Step(ForgetIn(p), token) == Ok(ForgetIn(PosixStep(p, token).value))
  {
    hide ForgetAll, EnvMatch, SameKind, CommandToken;
    match p.mode
    case InCommand => CommandForgets(p, p.current.value.command, token);
    case InChdir => ForgetPair(p, p.current.value, And);
    case _ =>
  }

  lemma {:induction false} FeedForgets(p: Parser, tokens: seq<string>)
    requires Fits(p) && PosixFeed(p, tokens).Some?
    ensures Fits(ForgetIn(p)) && Feed(ForgetIn(p), tokens) == Ok(ForgetIn(PosixFeed(p, tokens).value))
    decreases |tokens|
  {
    hide ForgetIn, PosixStep, Step, Fits;
    if tokens == [] {
      FitsForgets(p);
    } else {
      StepForgets(p, tokens[0]);
      FeedForgets(PosixStep(p, tokens[0]).value, tokens[1..]);
    }
  }

  lemma FitsForgets(p: Parser)
    requires Fits(p)
    ensures Fits(ForgetIn(p))
  {
  }

  lemma ForgetStart()
    ensures ForgetIn(START) == START
  {
  }

  /** The parser accepts such a line, and has the same nodes but for where stderr goes. */
  lemma LineForgets(tokens: seq<string>)
    requires PosixLine(tokens).Some?
    ensures ParseTokens(tokens) == Ok(ForgetAll(PosixLine(tokens).value))
  {
    ForgetStart();
    FeedForgets(START, tokens);
    var p := PosixFeed(START, tokens).value;
    ForgetConcat(p.pipeline, [p.current.value]);
    assert ForgetAll([p.current.value]) == [Forget(p.current.value)];
  }

  // ----- when the order does not matter -------------------------------------------

  /** The `k`-th token redirects the stdout of a command behind its `2>&1`. */
  ghost predicate OutBehindErr(tokens: seq<string>, k: nat)
    requires k < |tokens|
  {
    var p := Feed(START, tokens[..k]);
    && p.Ok? && p.value.mode == InCommand && p.value.current.value.command.stderr == ToStdout
    && tokens[k] == ">"
  }

  /** No command has a `>` behind a `2>&1`. */
  ghost predicate RedirectsInOrder(tokens: seq<string>) {
    forall k: nat :: k < |tokens| ==> !OutBehindErr(tokens, k)
  }

  predicate Marked(node: Node) {
    node.Run? && node.command.stderr == ToShellStdout
  }

  ghost predicate HasMark(p: Parser) {
    (p.current.Some? && Marked(p.current.value)) || exists i :: 0 <= i < |p.pipeline| && Marked(p.pipeline[i])
  }

  /** About to read the name of the file for stdout, with `2>&1` behind it. */
  predicate Late(p: Parser)
    requires Fits(p)
  {
    p.mode == InStdout && p.current.value.command.stderr == ToStdout
  }

  lemma StepMarks(p: Parser, token: string)
    requires Fits(p) && PosixStep(p, token).Some?
    ensures HasMark(PosixStep(p, token).value) <==> HasMark(p) || Late(p)
    ensures !Late(p) ==> Step(p, token) == Ok(PosixStep(p, token).value)
  {
    hide EnvMatch, SameKind;
    var q := PosixStep(p, token).value;
    assert q.pipeline == p.pipeline || |q.pipeline| == |p.pipeline| + 2;
    if q.pipeline != p.pipeline {
      CommitMarks(p, q.pipeline[|p.pipeline|], q.pipeline[|p.pipeline| + 1], q);
    }
  }

  lemma CommitMarks(p: Parser, node: Node, op: Node, q: Parser)
    requires q.current == None && q.pipeline == p.pipeline + [node, op] && !op.Run?
    ensures HasMark(q) <==> Marked(node) || exists i :: 0 <= i < |p.pipeline| && Marked(p.pipeline[i])
  {
    if Marked(node) {
      assert Marked(q.pipeline[|p.pipeline|]);
    }
    if i :| 0 <= i < |p.pipeline| && Marked(p.pipeline[i]) {
      assert Marked(q.pipeline[i]);
    }
  }

  lemma {:induction false} FeedKeepsMark(p: Parser, tokens: seq<string>)
    requires Fits(p) && PosixFeed(p, tokens).Some? && HasMark(p)
    ensures HasMark(PosixFeed(p, tokens).value)
    decreases |tokens|
  {
    hide PosixStep, Fits, HasMark, Late;
    if tokens != [] {
      StepMarks(p, tokens[0]);
      FeedKeepsMark(PosixStep(p, tokens[0]).value, tokens[1..]);
    }
  }

  lemma {:induction false} PosixFeedSplit(p: Parser, tokens: seq<string>, k: nat)
    requires Fits(p) && k <= |tokens| && PosixFeed(p, tokens).Some?
    ensures PosixFeed(p, tokens[..k]).Some?
    ensures PosixFeed(PosixFeed(p, tokens[..k]).value, tokens[k..]) == PosixFeed(p, tokens)
    decreases k
  {
    hide PosixStep, Fits;
    if k > 0 {
      PosixFeedSplit(PosixStep(p, tokens[0]).value, tokens[1..], k - 1);
      assert tokens[..k][1..] == tokens[1..][..k - 1] && tokens[1..][k - 1..] == tokens[k..];
    } else {
      assert tokens[0..] == tokens;
    }
  }

  lemma FeedNext(tokens: seq<string>, k: nat)
    requires k < |tokens| && Feed(START, tokens[..k]).Ok?
    ensures Feed(START, tokens[..k + 1]) == Step(Feed(START, tokens[..k]).value, tokens[k])
  {
    FeedConcat(START, tokens[..k], [tokens[k]]);
    FeedOne(Feed(START, tokens[..k]).value, tokens[k]);
    assert tokens[..k + 1] == tokens[..k] + [tokens[k]];
  }

  lemma BecomesLate(p: Parser, token: string)
    requires Fits(p) && PosixStep(p, token).Some?
    ensures Late(PosixStep(p, token).value) ==>
      p.mode == InCommand && token == ">" && p.current == PosixStep(p, token).value.current
    ensures p.mode == InCommand && token == ">" ==>
      PosixStep(p, token).value.mode == InStdout && PosixStep(p, token).value.current == p.current
  {
    hide EnvMatch, SameKind;
  }

  lemma {:induction false} InOrderFrom(tokens: seq<string>, k: nat, p: Parser)
    requires k <= |tokens| && Fits(p) && Feed(START, tokens[..k]) == Ok(p)
    requires RedirectsInOrder(tokens) && !HasMark(p) && !Late(p) && PosixFeed(p, tokens[k..]).Some?
    ensures !HasMark(PosixFeed(p, tokens[k..]).value)
    ensures Feed(START, tokens) == Ok(PosixFeed(p, tokens[k..]).value)
    decreases |tokens| - k
  {
    hide PosixStep, Step, HasMark;
    if k == |tokens| {
      assert tokens[..k] == tokens;
    } else {
      assert tokens[k..][0] == tokens[k] && tokens[k..][1..] == tokens[k + 1..];
      StepMarks(p, tokens[k]);
      BecomesLate(p, tokens[k]);
      FeedNext(tokens, k);
      assert !OutBehindErr(tokens, k);
      InOrderFrom(tokens, k + 1, PosixStep(p, tokens[k]).value);
    }
  }

  lemma OutOfOrderMarks(tokens: seq<string>, k: nat)
    requires PosixLine(tokens).Some? && k < |tokens| && OutBehindErr(tokens, k)
    ensures HasMark(PosixFeed(START, tokens).value)
  {
    hide PosixStep, Step, HasMark, ForgetAll;
    PosixFeedSplit(START, tokens, k);
    var p := PosixFeed(START, tokens[..k]).value;
    ForgetStart();
    FeedForgets(START, tokens[..k]);
    assert tokens[k..][0] == tokens[k] && tokens[k..][1..] == tokens[k + 1..];
    var q := PosixStep(p, tokens[k]).value;
    StepMarks(p, tokens[k]);
    BecomesLate(p, tokens[k]);
    MarkedNow(p);
    assert Late(q) || HasMark(q);
    assert k + 1 < |tokens|;
    assert tokens[k + 1..][0] == tokens[k + 1] && tokens[k + 1..][1..] == tokens[k + 2..];
    StepMarks(q, tokens[k + 1]);
    FeedKeepsMark(PosixStep(q, tokens[k + 1]).value, tokens[k + 2..]);
  }

  lemma MarkedNow(p: Parser)
    ensures p.current.Some? && Marked(p.current.value) ==> HasMark(p)
  {
  }

  /** A line without a `>` behind a `2>&1` is read as the parser reads it; any other has a command whose stderr
      goes where the parser has forgotten. */
  lemma InOrderIff(tokens: seq<string>)
    requires PosixLine(tokens).Some?
    ensures RedirectsInOrder(tokens) ==> ParseTokens(tokens) == Ok(PosixLine(tokens).value)
    ensures var nodes := PosixLine(tokens).value;
            RedirectsInOrder(tokens) <==> forall i :: 0 <= i < |nodes| ==> !Marked(nodes[i])
  {
    hide PosixStep, Step, RedirectsInOrder;
    var p := PosixFeed(START, tokens).value;
    FinalMark(p);
    if RedirectsInOrder(tokens) {
      assert tokens[..0] == [] && tokens[0..] == tokens;
      InOrderFrom(tokens, 0, START);
    } else {
      var k := FindOutOfOrder(tokens);
      OutOfOrderMarks(tokens, k);
    }
  }

  lemma FinalMark(p: Parser)
    requires p.current.Some?
    ensures HasMark(p) <==> exists i :: 0 <= i <= |p.pipeline| && Marked((p.pipeline + [p.current.value])[i])
  {
    var all := p.pipeline + [p.current.value];
    if HasMark(p) {
      if i :| 0 <= i < |p.pipeline| && Marked(p.pipeline[i]) {
        assert Marked(all[i]);
      } else {
        assert Marked(all[|p.pipeline|]);
      }
    }
  }

  lemma FindOutOfOrder(tokens: seq<string>) returns (k: nat)
    requires !RedirectsInOrder(tokens)
    ensures k < |tokens| && OutBehindErr(tokens, k)
  {
    k :| k < |tokens| && OutBehindErr(tokens, k);
  }

  // ----- a forgotten order tells the readings apart -----------------------------------

  ghost predicate Unmarked(log: Log) {
    forall k :: 0 <= k < |log| ==> log[k].stderr != ToShellStdout
  }

  /** `run` never sends stderr there. */
  lemma {:induction false} EvalUnmarked(nodes: seq<Node>, piping: bool, cwd: string, piped: seq<nat>, log: Log,
                                        world: World)
    requires Known(piped, log) && (piping ==> piped != [])
    requires (forall i :: 0 <= i < |nodes| ==> !Marked(nodes[i])) && Unmarked(log)
    ensures Unmarked(Eval(nodes, piping, cwd, piped, log, world).log)
    decreases |nodes|
  {
    hide GroupCode, ExitCodes, PipedInput, StdinOf;
    if |nodes| > 0 && nodes[0].Run? {
      var c := nodes[0].command;
      var log' := log + [SpawnOf(c, if piping then PipedInput(piped, log) else StdinOf(c), cwd)];
      assert !Marked(nodes[0]);
      if |nodes| > 1 {
        EvalUnmarked(nodes[2..], true, cwd, piped + [|log|], log', world);
        EvalUnmarked(nodes[2..], false, cwd, [], log', world);
        EvalUnmarked(nodes[2..], piping, cwd, piped + [|log|], log', world);
      }
    } else if |nodes| > 1 && nodes[0].Chdir? && nodes[1] == And && nodes[0].dir.Some? {
      EvalUnmarked(nodes[2..], piping, JoinPath(cwd, nodes[0].dir.value), piped, log, world);
    }
  }

  lemma ChangeStarts(nodes: seq<Node>, piping: bool, at: Progress, world: World)
    requires nodes != [] && nodes[0].Chdir? && nodes[0].dir.Some?
    ensures Operand(nodes[0], piping, at, world).log == at.log && Operand(nodes[0], piping, at, world).code == 0
  {
  }

  lemma MarkStarted(nodes: seq<Node>, piping: bool, at: Progress, world: World)
    requires nodes != [] && Marked(nodes[0]) && (|nodes| == 1 || (|nodes| > 2 && IsOp(nodes[1])))
    ensures !Unmarked(Flow(nodes, true, piping, at, world).log)
  {
    hide Flow;
    FlowHead(nodes, piping, at, world);
    var log := Flow(nodes, true, piping, at, world).log;
    var spawn := PosixSpawn(nodes[0].command, piping, at.cwd, at.log);
    assert (at.log + [spawn])[|at.log|] == spawn;
    assert log[|at.log|].stderr == ToShellStdout;
  }

  /** When everything is run, so is the command with the mark. */
  lemma {:induction false} FlowMarked(pipeline: seq<Node>, i: nat, piping: bool, at: Progress, b: nat, world: World)
    requires Alternates(pipeline) && Runnable(pipeline) && i % 2 == 0
    requires i <= b < |pipeline| && Marked(pipeline[b])
    requires Answers(world, ProceedCodes(pipeline[i..]), |at.log|)
    ensures !Unmarked(Flow(pipeline[i..], true, piping, at, world).log)
    decreases |pipeline| - i
  {
    hide Alternates, Flow, Operand, Answers, ProceedCodes, Unmarked, PosixSpawn;
    PairAt(pipeline, i);
    var nodes := pipeline[i..];
    assert nodes[0] == pipeline[i];
    if |nodes| > 1 {
      assert nodes[1] == pipeline[i + 1] && nodes[2..] == pipeline[i + 2..];
      ProceedCodesSkip(nodes);
      FlowStep(nodes, piping, at, world);
    }
    var next := Operand(nodes[0], piping, at, world);
    if i == b {
      MarkStarted(nodes, piping, at, world);
    } else if nodes[0].Chdir? {
      ChangeStarts(nodes, piping, at, world);
      assert ProceedCodes(nodes) == ProceedCodes(pipeline[i + 2..]);
      FlowMarked(pipeline, i + 2, false, next, b, world);
    } else {
      AnswersTail(world, if nodes[1] == Or then 1 else 0, ProceedCodes(nodes[2..]), |at.log|);
      OperandRun(nodes[0].command, piping, at, world);
      FlowMarked(pipeline, i + 2, nodes[1] == Pipe, next, b, world);
    }
  }

  lemma ForgetStructure(nodes: seq<Node>)
    requires WellFormed(ForgetAll(nodes)) && Runnable(ForgetAll(nodes))
    ensures Alternates(nodes) && Runnable(nodes)
    ensures forall i :: 0 <= i < |nodes| ==> !Marked(ForgetAll(nodes)[i])
  {
    var plain := ForgetAll(nodes);
    WellFormedAlternates(plain);
    hide WellFormed;
    forall i: nat | i < |nodes| ensures AlternatesAt(nodes, i) {
      assert AlternatesAt(plain, i);
      assert plain[i] == Forget(nodes[i]);
      assert i + 1 < |nodes| ==> plain[i + 1] == Forget(nodes[i + 1]);
    }
    forall i | 0 <= i < |nodes| ensures nodes[i] != Chdir(None) && !Marked(plain[i]) {
      assert plain[i] == Forget(nodes[i]);
    }
    assert plain[|nodes| - 1] == Forget(nodes[|nodes| - 1]);
  }

  // ----- the comparison ---------------------------------------------------------------

  /** For a command line that POSIX divides into the same words, assignments and operators: `run` does what POSIX
      says in every world if and only if no `>` stands behind a `2>&1` of the same command, and the pipeline
      meets the condition of `RunIsPosixIff`. */
  lemma LineIsPosixIff(tokens: seq<string>)
    requires PosixLine(tokens).Some? && ParseTokens(tokens).Ok? && Runnable(ParseTokens(tokens).value)
    ensures RedirectsInOrder(tokens) && AgreesWithPosix(ParseTokens(tokens).value) <==>
      forall world: World ::
        EvalPipeline(ParseTokens(tokens).value, world) == ResultOf(PosixReading(PosixLine(tokens).value, world))
  {
    hide WellFormed, Runnable, RedirectsInOrder, AgreesWithPosix, PosixLine, ParseTokens, PosixReading, EvalPipeline;
    var pipeline, nodes := ParseTokens(tokens).value, PosixLine(tokens).value;
    ParsedIsWellFormed(tokens);
    LineForgets(tokens);
    InOrderIff(tokens);
    if RedirectsInOrder(tokens) {
      RunIsPosixIff(pipeline);
    } else {
      var b: nat :| b < |nodes| && Marked(nodes[b]);
      var world := MarkTells(nodes, b);
      assert EvalPipeline(pipeline, world) != ResultOf(PosixReading(nodes, world));
    }
  }

  lemma MarkTells(nodes: seq<Node>, b: nat) returns (world: World)
    requires WellFormed(ForgetAll(nodes)) && Runnable(ForgetAll(nodes)) && b < |nodes| && Marked(nodes[b])
    ensures EvalPipeline(ForgetAll(nodes), world).log != PosixReading(nodes, world).log
  {
    hide WellFormed, Runnable, Alternates, ForgetAll, Eval, Flow, PosixReading;
    ForgetStructure(nodes);
    var codes := ProceedCodes(nodes);
    world := (log: Log, n: nat) => if n < |codes| then codes[n] else 0;
    assert nodes[0..] == nodes;
    ReadingIsFlow(nodes, world);
    FlowMarked(nodes, 0, false, AT_START, b, world);
    SameLength(nodes);
    EvalUnmarked(ForgetAll(nodes), false, ".", [], [], world);
  }

  lemma SameLength(nodes: seq<Node>)
    ensures |ForgetAll(nodes)| == |nodes|
  {
  }

  // ----- a line on which they differ -----------------------------------------------------

  lemma PosixFeedMore(p: Parser, token: string, tokens: seq<string>)
    requires Fits(p) && PosixStep(p, token).Some?
    ensures PosixFeed(p, [token] + tokens) == PosixFeed(PosixStep(p, token).value, tokens)
  {
    assert ([token] + tokens)[1..] == tokens;
  }

  lemma FourTokens(a: string, b: string, c: string, d: string, p1: Parser, p2: Parser, p3: Parser, p4: Parser)
    requires PosixStep(START, a) == Some(p1)
    requires PosixStep(p1, b) == Some(p2) && PosixStep(p2, c) == Some(p3) && PosixStep(p3, d) == Some(p4)
    requires p4.mode == InCommand && p4.pipeline == []
    ensures PosixLine([a, b, c, d]) == Some([p4.current.value])
    ensures ParseTokens([a, b, c, d]) == Ok([Forget(p4.current.value)])
  {
    hide PosixStep, PosixFeed, ParseTokens;
    PosixFeedMore(START, a, [b, c, d]);
    PosixFeedMore(p1, b, [c, d]);
    PosixFeedMore(p2, c, [d]);
    PosixFeedMore(p3, d, []);
    PosixFeedEnd(p4);
    assert [a] + [b, c, d] == [a, b, c, d] && [b] + [c, d] == [b, c, d] && [c] + [d] == [c, d] && [d] + [] == [d];
    assert [] + [p4.current.value] == [p4.current.value];
    LineForgets([a, b, c, d]);
    assert ForgetAll([p4.current.value]) == [Forget(p4.current.value)];
  }

  lemma PosixFeedEnd(p: Parser)
    requires Fits(p)
    ensures PosixFeed(p, []) == Some(p)
  {
  }

  /** A word that is no operator, no assignment and not `cd`. */
  ghost predicate IsName(a: string) {
    !IsOperatorToken(a) && a != "cd" && '=' !in a
  }

  lemma NameIsName(a: string)
    requires IsName(a)
    ensures EnvMatch(a) == None && SameKind(Begin, a)
  {
    assert forall k :: 0 <= k < |a| ==> a[k] != '=';
  }

  /** `a 2>&1 > f` and `a > f 2>&1`: the parser makes the same command of both, and sends stderr to `f`; in POSIX
      it goes to `f` for the second, but for the first to the stdout of the shell. */
  lemma OutOfOrderExample(a: string, f: string)
    requires IsName(a) && !IsOperatorToken(f)
    ensures var c := NewCommand(a, map[]).(stdout := File(f));
      var late, early := [a, "2>&1", ">", f], [a, ">", f, "2>&1"];
      && ParseTokens(late) == ParseTokens(early) == Ok([Run(c.(stderr := ToStdout))])
      && PosixLine(late) == Some([Run(c.(stderr := ToShellStdout))])
      && PosixLine(early) == Some([Run(c.(stderr := ToStdout))])
  {
    hide EnvMatch, SameAssignment, PosixLine, ParseTokens;
    NameIsName(a);
    var c := NewCommand(a, map[]);
    var d := c.(stderr := ToStdout);
    var p1 := Parser(InCommand, Some(Run(c)), map[], []);
    var p2 := Parser(InCommand, Some(Run(d)), map[], []);
    var p4 := Parser(InCommand, Some(Run(c.(stdout := File(f), stderr := ToShellStdout))), map[], []);
    FourTokens(a, "2>&1", ">", f, p1, p2, p2.(mode := InStdout), p4);
    var q3 := Parser(InCommand, Some(Run(c.(stdout := File(f)))), map[], []);
    var q4 := Parser(InCommand, Some(Run(d.(stdout := File(f)))), map[], []);
    FourTokens(a, ">", f, "2>&1", p1, p1.(mode := InStdout), q3, q4);
  }
}
