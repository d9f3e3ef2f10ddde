/** The class `Pipeline` of waf-tools/shellcmd.py: its fields change token by token and node by node. */
module ShellPipeline {
  import opened Results
  import opened ShellSyntax
  import opened ShellSemantics
  import ShellPosix
  import ShellPosixLine
  import ShellProcesses

  /** `_exec_piped_commands`, for processes whose codes are known. */
  method ExecPipedCommands(piped: seq<nat>, log: Log, world: World) returns (retval: int)
    ensures retval == GroupCode(ExitCodes(piped, log, world))
    ensures piped != [] ==> retval == world(log, piped[|piped| - 1])
  {
    var retvals: seq<int> := [];
    for i := 0 to |piped|
      invariant retvals == ExitCodes(piped[..i], log, world)
    {
      retvals := retvals + [world(log, piped[i])];
    }
    assert piped[..|piped|] == piped;
    retval := 0;
    for i := 0 to |retvals|
      invariant retval == 0
      invariant forall j :: 0 <= j < i ==> retvals[j] == 0
    {
      if retvals[i] != 0 {
        retval := retvals[|retvals| - 1];
        break;
      }
    }
    if piped != [] {
      GroupCodeIsLast(retvals);
    }
  }

  class Pipeline {
    var currentCommand: Option<Node>
    var pipeline: seq<Node>

    constructor ()
      ensures currentCommand == None && pipeline == []
    {
      currentCommand, pipeline := None, [];
    }

    method CommitCommand() returns (r: Result<(), AssertionError>)
      modifies this
      ensures r.Err? <==> old(currentCommand) == None
      ensures r.Ok? ==> pipeline == old(pipeline) + [old(currentCommand).value]
      ensures currentCommand == None
      ensures r.Err? ==> pipeline == old(pipeline)
    {
      if currentCommand == None {
        return Err(AssertionError);
      }
      pipeline := pipeline + [currentCommand.value];
      currentCommand := None;
      return Ok(());
    }

    /** Commit an operand and append the operator behind it. */
    method CommitWithOp(op: Node)
      requires currentCommand.Some?
      modifies this
      ensures pipeline == old(pipeline) + [old(currentCommand).value, op] && currentCommand == None
    {
      var committed := CommitCommand();
      pipeline := pipeline + [op];
    }

    ghost function AsParser(mode: Mode, envVars: map<string, string>): Parser
      reads this
    {
      Parser(mode, currentCommand, envVars, pipeline)
    }

    method Parse(command: seq<string>) returns (r: Result<seq<Node>, AssertionError>)
      modifies this
      ensures r == ParseTokens(command)
      ensures r.Ok? ==> pipeline == r.value && currentCommand == None && WellFormed(pipeline)
    {
      currentCommand, pipeline := None, [];
      var tokens := command;
      var mode := Begin;
      var envVars: map<string, string> := map[];
      while tokens != []
        invariant Fits(AsParser(mode, envVars))
        invariant ParseFrom(AsParser(mode, envVars), tokens) == ParseTokens(command)
        decreases |tokens|
      {
        var token := tokens[0];
        tokens := tokens[1..];
        match mode
        case Begin =>
          var m := EnvMatch(token);
          if m.Some? {
            envVars := envVars[m.value.0 := m.value.1];
          } else if token == "cd" {
            currentCommand := Some(Chdir(None));
            if envVars != map[] {
              return Err(AssertionError);
            }
            mode := InChdir;
          } else {
            currentCommand := Some(Run(NewCommand(token, envVars)));
            envVars := map[];
            mode := InCommand;
          }
        case InCommand =>
          var c := currentCommand.value.command;
          if token == ">" {
            mode := InStdout;
          } else if token == "2>" {
            mode := InStderr;
          } else if token == "2>&1" {
            if c.stderr != Inherit {
              return Err(AssertionError);
            }
            currentCommand := Some(Run(c.(stderr := ToStdout)));
          } else if token == "<" {
            mode := InStdin;
          } else if token == "|" {
            if c.stdout != Inherit {
              return Err(AssertionError);
            }
            currentCommand := Some(Run(c.(stdout := ToPipe)));
            CommitWithOp(Pipe);
            mode := Begin;
          } else if token == "&&" {
            CommitWithOp(And);
            mode := Begin;
          } else if token == "||" {
            CommitWithOp(Or);
            mode := Begin;
          } else {
            currentCommand := Some(Run(c.(argv := c.argv + [token])));
          }
        case InChdir =>
          if token == "&&" {
            CommitWithOp(And);
            mode := Begin;
          } else {
            if currentCommand.value.dir != None {
              return Err(AssertionError);
            }
            currentCommand := Some(Chdir(Some(token)));
          }
        case InStdout =>
          var c := currentCommand.value.command;
          if c.stdout != Inherit {
            return Err(AssertionError);
          }
          currentCommand := Some(Run(c.(stdout := File(token))));
          mode := InCommand;
        case InStderr =>
          var c := currentCommand.value.command;
          if c.stderr != Inherit {
            return Err(AssertionError);
          }
          currentCommand := Some(Run(c.(stderr := File(token))));
          mode := InCommand;
        case InStdin =>
          var c := currentCommand.value.command;
          if c.stdin != None {
            return Err(AssertionError);
          }
          currentCommand := Some(Run(c.(stdin := Some(token))));
          mode := InCommand;
      }
      var committed := CommitCommand();
      if committed.Err? {
        return Err(AssertionError);
      }
      r := Ok(pipeline);
      ParsedIsWellFormed(command);
    }

    /** The processes it starts are appended to `log`; `world` says how they end. */
    method RunPipeline(world: World) returns (r: Result<Option<int>, RunError>, log: Log)
      ensures Outcome(r, log) == EvalPipeline(pipeline, world)
    {
      var nodes := pipeline;
      var pipedCommands: seq<nat> := [];
      var piping := false;
      var cwd := ".";
      log := [];
      while nodes != []
        invariant Known(pipedCommands, log) && (piping ==> pipedCommands != [])
        invariant Eval(nodes, piping, cwd, pipedCommands, log, world) == EvalPipeline(pipeline, world)
        decreases |nodes|
      {
        var node := nodes[0];
        nodes := nodes[1..];
        if node.Chdir? {
          if nodes == [] {
            return Err(PopFromEmptyList), log;
          }
          var nextOp := nodes[0];
          nodes := nodes[1..];
          if nextOp != And {
            return Err(NodeAssertion), log;
          }
          if node.dir == None {
            return Err(JoinWithNone), log;
          }
          cwd := JoinPath(cwd, node.dir.value);
          continue;
        }
        if !node.Run? {
          return Err(NodeAssertion), log;
        }
        var cmd := node.command;
        var stdin := if piping then PipedInput(pipedCommands, log) else StdinOf(cmd);
        pipedCommands := pipedCommands + [|log|];
        log := log + [SpawnOf(cmd, stdin, cwd)];
        if nodes == [] {
          var retval := ExecPipedCommands(pipedCommands, log, world);
          return Ok(Some(retval)), log;
        }
        var nextNode := nodes[0];
        nodes := nodes[1..];
        if nextNode == Pipe {
          piping := true;
        } else if nextNode == Or {
          var retval := ExecPipedCommands(pipedCommands, log, world);
          if retval == 0 {
            return Ok(Some(retval)), log;
          }
          piping, pipedCommands := false, [];
        } else if nextNode == And {
          var retval := ExecPipedCommands(pipedCommands, log, world);
          if retval != 0 {
            return Ok(Some(retval)), log;
          }
          piping, pipedCommands := false, [];
        }
      }
      return Ok(None), log;
    }
  }

  /** A command line from its tokens to its exit code: if it parses, and has no bare or trailing `cd`,
      it gets the right-nested meaning of the and-or list it stands for; under the exact condition of
      `LineIsPosixIff` that is also the meaning that POSIX gives it, if POSIX divides it into the same words. */
  method ParseAndRun(tokens: seq<string>, world: World)
    returns (parsed: Result<seq<Node>, AssertionError>, r: Result<Option<int>, RunError>, log: Log, ghost l: AndOrList)
    ensures parsed == ParseTokens(tokens)
    ensures parsed.Ok? ==> ShellProcesses.AreProcesses(parsed.value, log)
    ensures parsed.Ok? && Runnable(parsed.value) ==>
      var done := RightNested(l.first, l.rest, AT_START, world);
      && ValidList(l) && Flatten(l.first, l.rest) == parsed.value
      && r == Ok(Some(done.code)) && log == done.log
    ensures parsed.Ok? && Runnable(parsed.value) && ShellPosixLine.PosixLine(tokens).Some?
            && ShellPosixLine.RedirectsInOrder(tokens) && ShellPosix.AgreesWithPosix(parsed.value) ==>
      Outcome(r, log)
      == ShellPosix.ResultOf(ShellPosix.PosixReading(ShellPosixLine.PosixLine(tokens).value, world))
  {
    var pipeline := new Pipeline();
    parsed := pipeline.Parse(tokens);
    r, log := Ok(None), [];
    l := AndOrList([], []);
    if parsed.Ok? {
      r, log := pipeline.RunPipeline(world);
      ShellProcesses.ProcessesOfLine(parsed.value, world);
      if Runnable(parsed.value) {
        l := RunIsRightNested(parsed.value);
        if ShellPosixLine.PosixLine(tokens).Some? {
          ShellPosixLine.LineIsPosixIff(tokens);
        }
      }
    }
  }
}
