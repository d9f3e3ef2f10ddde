/** What each process that `run` starts gets: its words, its environment, its files, its input and its directory,
    said of the pipeline and of the log alone. */
module ShellProcesses {
  import opened Results
  import opened ShellSyntax
  import opened ShellSemantics
  import opened ShellPosix

  /** How many commands stand in front of a position: the number of the process that a command becomes. */
  ghost function RunsBefore(pipeline: seq<Node>, i: nat): nat
    requires i <= |pipeline|
  {
    if i == 0 then 0 else RunsBefore(pipeline, i - 1) + if pipeline[i - 1].Run? then 1 else 0
  }

  /** A pipe leads to this position, if need be over `cd d &&`. */
  ghost predicate BehindPipe(pipeline: seq<Node>, i: nat)
    requires i < |pipeline|
  {
    i >= 2 && (pipeline[i - 1] == Pipe || (pipeline[i - 2].Chdir? && BehindPipe(pipeline, i - 2)))
  }

  /** The directories that the line has changed to in front of a position, in order. */
  ghost function DirsBefore(pipeline: seq<Node>, i: nat): seq<string>
    requires i <= |pipeline|
  {
    if i == 0 then []
    else
      var node := pipeline[i - 1];
      DirsBefore(pipeline, i - 1) + if node.Chdir? && node.dir.Some? then [node.dir.value] else []
  }

  /** `path` is directory `b` taken from directory `a`: an absolute `b` stands for itself, any other is appended,
      behind a slash that is added only if `a` does not end in one. */
  ghost predicate IsJoined(path: string, a: string, b: string) {
    if b != "" && b[0] == '/' then path == b
    else
      && a != "" && a <= path
      && (path == a + b || path == a + "/" + b)
      && path[|path| - |b| - 1] == '/'
      && (|path| == |a| + |b| <==> a[|a| - 1] == '/')
  }

  /** The directories that the line is in, from the one where it starts to the last. */
  ghost predicate Leads(dirs: seq<string>, paths: seq<string>) {
    && |paths| == |dirs| + 1 && paths[0] == "."
    && forall k :: 0 <= k < |dirs| ==> IsJoined(paths[k + 1], paths[k], dirs[k])
  }

  /** `path` is what the directories come to, one after the other. */
  ghost predicate LeadTo(dirs: seq<string>, path: string) {
    exists paths :: Leads(dirs, paths) && paths[|dirs|] == path
  }

  /** The process is that of the command at this position. */
  ghost predicate ProcessOf(pipeline: seq<Node>, i: nat, n: nat, spawn: Spawn)
    requires i < |pipeline| && pipeline[i].Run?
  {
    var c := pipeline[i].command;
    && spawn.argv == c.argv && spawn.envVars == c.envVars
    && spawn.stdout == c.stdout && spawn.stderr == c.stderr
    && (BehindPipe(pipeline, i) ==> n > 0 && spawn.stdin == FromProcess(n - 1))
    && (!BehindPipe(pipeline, i) && c.stdin.Some? ==> spawn.stdin == FromFile(c.stdin.value))
    && (!BehindPipe(pipeline, i) && c.stdin.None? ==> spawn.stdin == Inherited)
    && (DirsBefore(pipeline, i) == [] ==> spawn.cwd == None)
    && (DirsBefore(pipeline, i) != [] ==> spawn.cwd.Some? && LeadTo(DirsBefore(pipeline, i), spawn.cwd.value))
  }

  ghost predicate IsProcess(pipeline: seq<Node>, n: nat, spawn: Spawn) {
    exists i: nat ::
      i < |pipeline| && pipeline[i].Run? && RunsBefore(pipeline, i) == n && ProcessOf(pipeline, i, n, spawn)
  }

  ghost predicate AreProcesses(pipeline: seq<Node>, log: Log) {
    forall n: nat :: n < |log| ==> IsProcess(pipeline, n, log[n])
  }

  // ----- directories ------------------------------------------------------------------

  lemma JoinPathJoins(a: string, b: string)
    requires a != ""
    ensures IsJoined(JoinPath(a, b), a, b)
  {
  }

  lemma {:induction false} LeadsReached(dirs: seq<string>, paths: seq<string>, k: nat)
    requires Leads(dirs, paths) && k <= |dirs|
    ensures Reached(paths[k]) && paths[k] != "" && (paths[k] == "." <==> k == 0)
  {
    if k > 0 {
      LeadsReached(dirs, paths, k - 1);
      JoinedIsJoin(paths[k], paths[k - 1], dirs[k - 1]);
      JoinMoves(paths[k - 1], dirs[k - 1]);
    }
  }

  lemma JoinedIsJoin(path: string, a: string, b: string)
    requires a != "" && IsJoined(path, a, b)
    ensures path == JoinPath(a, b) && path != ""
  {
  }

  lemma MoreDirsLead(dirs: seq<string>, path: string, d: string)
    requires LeadTo(dirs, path)
    ensures path != "" && (path == "." <==> dirs == [])
    ensures LeadTo(dirs + [d], JoinPath(path, d))
  {
    var paths :| Leads(dirs, paths) && paths[|dirs|] == path;
    LeadsReached(dirs, paths, |dirs|);
    JoinPathJoins(path, d);
    assert Leads(dirs + [d], paths + [JoinPath(path, d)]);
  }

  lemma NoDirsLead()
    ensures LeadTo([], ".")
  {
    assert Leads([], ["."]);
  }

  // ----- every process ----------------------------------------------------------------

  lemma ProcessStarted(pipeline: seq<Node>, i: nat, piping: bool, cwd: string, piped: seq<nat>, log: Log)
    requires i < |pipeline| && pipeline[i].Run? && RunsBefore(pipeline, i) == |log|
    requires InPipe(piping, piped, log) && (piping <==> BehindPipe(pipeline, i))
    requires LeadTo(DirsBefore(pipeline, i), cwd) && AreProcesses(pipeline, log)
    ensures var c := pipeline[i].command;
      AreProcesses(pipeline, log + [SpawnOf(c, if piping then FromProcess(|log| - 1) else StdinOf(c), cwd)])
  {
    hide DirsBefore, BehindPipe, LeadTo, RunsBefore;
    var c := pipeline[i].command;
    var spawn := SpawnOf(c, if piping then FromProcess(|log| - 1) else StdinOf(c), cwd);
    MoreDirsLead(DirsBefore(pipeline, i), cwd, "");
    assert ProcessOf(pipeline, i, |log|, spawn);
    hide ProcessOf;
    var more := log + [spawn];
    forall n: nat | n < |more| ensures IsProcess(pipeline, n, more[n]) {
      if n < |log| {
        assert IsProcess(pipeline, n, log[n]);
      }
    }
  }

  /** What stands between two operands. */
  lemma PositionStep(pipeline: seq<Node>, i: nat)
    requires WellFormed(pipeline) && i + 2 < |pipeline| && i % 2 == 0
    ensures RunsBefore(pipeline, i + 2) == RunsBefore(pipeline, i) + if pipeline[i].Run? then 1 else 0
    ensures BehindPipe(pipeline, i + 2) <==> pipeline[i + 1] == Pipe || (pipeline[i].Chdir? && BehindPipe(pipeline, i))
    ensures DirsBefore(pipeline, i + 2) == DirsBefore(pipeline, i) +
            if pipeline[i].Chdir? && pipeline[i].dir.Some? then [pipeline[i].dir.value] else []
  {
    OperandAt(pipeline, i);
    assert DirsBefore(pipeline, i + 1) == DirsBefore(pipeline, i) +
           if pipeline[i].Chdir? && pipeline[i].dir.Some? then [pipeline[i].dir.value] else [];
    assert RunsBefore(pipeline, i + 1) == RunsBefore(pipeline, i) + if pipeline[i].Run? then 1 else 0;
  }

  lemma {:induction false} ProcessesFrom(pipeline: seq<Node>, i: nat, piping: bool, cwd: string, piped: seq<nat>,
                                         log: Log, world: World)
    requires WellFormed(pipeline) && i < |pipeline| && i % 2 == 0
    requires InPipe(piping, piped, log) && (piping <==> BehindPipe(pipeline, i))
    requires RunsBefore(pipeline, i) == |log| && AreProcesses(pipeline, log)
    requires LeadTo(DirsBefore(pipeline, i), cwd)
    ensures AreProcesses(pipeline, Eval(pipeline[i..], piping, cwd, piped, log, world).log)
    decreases |pipeline| - i
  {
    hide WellFormed, Eval, SpawnOf, AreProcesses, LeadTo, RunsBefore, BehindPipe, DirsBefore;
    OperandAt(pipeline, i);
    var nodes := pipeline[i..];
    assert nodes[0] == pipeline[i];
    if |nodes| > 1 {
      assert nodes[1] == pipeline[i + 1] && nodes[2..] == pipeline[i + 2..];
      PositionStep(pipeline, i);
    }
    if nodes[0].Chdir? {
      if |nodes| == 1 || nodes[0].dir == None {
        BadCdStops(nodes, piping, cwd, piped, log, world);
      } else {
        var d := nodes[0].dir.value;
        EvalCd(nodes, piping, cwd, piped, log, world);
        MoreDirsLead(DirsBefore(pipeline, i), cwd, d);
        ProcessesFrom(pipeline, i + 2, piping, JoinPath(cwd, d), piped, log, world);
      }
    } else {
      var c := nodes[0].command;
      var spawn := SpawnOf(c, if piping then FromProcess(|log| - 1) else StdinOf(c), cwd);
      ProcessStarted(pipeline, i, piping, cwd, piped, log);
      EvalRun(nodes, piping, cwd, piped, log, world);
      if |nodes| > 1 {
        assert DirsBefore(pipeline, i + 2) == DirsBefore(pipeline, i);
        if nodes[1] == Pipe {
          PipeKept(pipeline, i);
          SpawnKeepsPipe(c);
          ProcessesFrom(pipeline, i + 2, true, cwd, piped + [|log|], log + [spawn], world);
        } else if Proceeds(if nodes[1] == And then AndThen else OrElse, world(log + [spawn], |log|)) {
          ProcessesFrom(pipeline, i + 2, false, cwd, [], log + [spawn], world);
        }
      }
    }
  }

  lemma BadCdStops(nodes: seq<Node>, piping: bool, cwd: string, piped: seq<nat>, log: Log, world: World)
    requires nodes != [] && nodes[0].Chdir? && (|nodes| == 1 || nodes[0].dir == None)
    requires Known(piped, log) && (piping ==> piped != [])
    ensures Eval(nodes, piping, cwd, piped, log, world).log == log
  {
  }

  /** In every world the n-th process that is started is the n-th command of the line, with the words, the
      environment and the files of that command; it reads the process before it if a pipe leads to it, else the
      file of the command if there is one; it is where the line starts, or where the `cd`s in front of it lead. */
  lemma ProcessesOfLine(pipeline: seq<Node>, world: World)
    requires WellFormed(pipeline)
    ensures AreProcesses(pipeline, EvalPipeline(pipeline, world).log)
  {
    assert pipeline[0..] == pipeline;
    NoDirsLead();
    ProcessesFrom(pipeline, 0, false, ".", [], [], world);
  }

  /** The code that is returned is that of the process started last. */
  lemma {:induction false} LastCode(pipeline: seq<Node>, i: nat, piping: bool, cwd: string, piped: seq<nat>,
                                    log: Log, world: World)
    requires WellFormed(pipeline) && i < |pipeline| && i % 2 == 0 && InPipe(piping, piped, log)
    ensures var done := Eval(pipeline[i..], piping, cwd, piped, log, world);
      done.result.Ok? ==> done.log != [] && done.result == Ok(Some(world(done.log, |done.log| - 1)))
    decreases |pipeline| - i
  {
    hide WellFormed, Eval, SpawnOf;
    OperandAt(pipeline, i);
    var nodes := pipeline[i..];
    assert nodes[0] == pipeline[i];
    if |nodes| > 1 {
      assert nodes[1] == pipeline[i + 1] && nodes[2..] == pipeline[i + 2..];
    }
    if nodes[0].Chdir? {
      if |nodes| == 1 || nodes[0].dir == None {
        EvalBadCd(nodes, piping, cwd, piped, log, world);
      } else {
        EvalCd(nodes, piping, cwd, piped, log, world);
        LastCode(pipeline, i + 2, piping, JoinPath(cwd, nodes[0].dir.value), piped, log, world);
      }
    } else {
      var c := nodes[0].command;
      var spawn := SpawnOf(c, if piping then FromProcess(|log| - 1) else StdinOf(c), cwd);
      EvalRun(nodes, piping, cwd, piped, log, world);
      if |nodes| > 1 {
        if nodes[1] == Pipe {
          PipeKept(pipeline, i);
          SpawnKeepsPipe(c);
          LastCode(pipeline, i + 2, true, cwd, piped + [|log|], log + [spawn], world);
        } else {
          LastCode(pipeline, i + 2, false, cwd, [], log + [spawn], world);
        }
      }
    }
  }

  // ----- one line ------------------------------------------------------------------------

  /** `cd x && A=1 b`: one process, with the assignment in its environment, in the directory `./x`. */
  lemma DirAndEnvExample(world: World)
    ensures ParseTokens(["cd", "x", "&&", "A=1", "b"])
         == Ok([Chdir(Some("x")), And, Run(Command("b", ["b"], None, Inherit, Inherit, map["A" := "1"]))])
    ensures EvalPipeline(ParseTokens(["cd", "x", "&&", "A=1", "b"]).value, world).log
         == [Spawn(["b"], Inherited, Inherit, Inherit, map["A" := "1"], Some("./x"))]
  {
    ParseDirAndEnv();
    var c := Command("b", ["b"], None, Inherit, Inherit, map["A" := "1"]);
    var line := [Chdir(Some("x")), And, Run(c)];
    hide ParseTokens, Eval;
    assert line[2..] == [Run(c)] && JoinPath(".", "x") == "./x";
    EvalCd(line, false, ".", [], [], world);
    EvalRun([Run(c)], false, "./x", [], [], world);
  }

  lemma ParseDirAndEnv()
    ensures ParseTokens(["cd", "x", "&&", "A=1", "b"])
         == Ok([Chdir(Some("x")), And, Run(Command("b", ["b"], None, Inherit, Inherit, map["A" := "1"]))])
  {
    hide EnvMatch, Feed, Step;
    var line := [Chdir(Some("x")), And];
    var c := Command("b", ["b"], None, Inherit, Inherit, map["A" := "1"]);
    StepCd();
    StepAssign(line);
    StepName(line, map["A" := "1"]);
    assert ["cd"] + ["x", "&&", "A=1", "b"] == ["cd", "x", "&&", "A=1", "b"];
    assert ["x"] + ["&&", "A=1", "b"] == ["x", "&&", "A=1", "b"];
    assert ["&&"] + ["A=1", "b"] == ["&&", "A=1", "b"];
    assert ["A=1"] + ["b"] == ["A=1", "b"];
    FeedMore(START, "cd", ["x", "&&", "A=1", "b"]);
    FeedMore(Parser(InChdir, Some(Chdir(None)), map[], []), "x", ["&&", "A=1", "b"]);
    FeedMore(Parser(InChdir, Some(Chdir(Some("x"))), map[], []), "&&", ["A=1", "b"]);
    FeedMore(Parser(Begin, None, map[], line), "A=1", ["b"]);
    FeedOne(Parser(Begin, None, map["A" := "1"], line), "b");
    assert line + [Run(c)] == [Chdir(Some("x")), And, Run(c)];
  }

  lemma StepCd()
    ensures Step(START, "cd") == Ok(Parser(InChdir, Some(Chdir(None)), map[], []))
    ensures Step(Parser(InChdir, Some(Chdir(None)), map[], []), "x")
         == Ok(Parser(InChdir, Some(Chdir(Some("x"))), map[], []))
    ensures Step(Parser(InChdir, Some(Chdir(Some("x"))), map[], []), "&&")
         == Ok(Parser(Begin, None, map[], [Chdir(Some("x")), And]))
  {
    hide EnvMatch;
    NoAssignment("cd");
    assert [] + [Chdir(Some("x")), And] == [Chdir(Some("x")), And];
  }

  lemma StepAssign(line: seq<Node>)
    ensures Step(Parser(Begin, None, map[], line), "A=1") == Ok(Parser(Begin, None, map["A" := "1"], line))
  {
    hide EnvMatch;
    EnvMatchPrinted("A", "1");
    assert "A" + "=" + "1" == "A=1";
  }

  lemma StepName(line: seq<Node>, envVars: map<string, string>)
    ensures Step(Parser(Begin, None, envVars, line), "b")
         == Ok(Parser(InCommand, Some(Run(Command("b", ["b"], None, Inherit, Inherit, envVars))), map[], line))
  {
    hide EnvMatch;
    NoAssignment("b");
  }

  lemma FeedMore(p: Parser, token: string, tokens: seq<string>)
    requires Fits(p) && Step(p, token).Ok?
    ensures Feed(p, [token] + tokens) == Feed(Step(p, token).value, tokens)
  {
    assert ([token] + tokens)[1..] == tokens;
  }

  lemma NoAssignment(token: string)
    requires '=' !in token
    ensures EnvMatch(token) == None
  {
    assert forall k :: 0 <= k < |token| ==> token[k] != '=';
  }
}
