/** Tokens, pipelines and the six-state parser of waf-tools/shellcmd.py. */
module ShellSyntax {
  import opened Results

  /** `ToShellStdout` is what the stdout of the shell itself goes to; the parser never makes it. */
  datatype Redirect = Inherit | File(name: string) | ToPipe | ToStdout | ToShellStdout

  datatype Command = Command(
    name: string,
    argv: seq<string>,
    stdin: Option<string>,
    stdout: Redirect,
    stderr: Redirect,
    envVars: map<string, string>)   // empty stands for "none given"

  datatype Node = Run(command: Command) | Chdir(dir: Option<string>) | Pipe | And | Or

  datatype AssertionError = AssertionError

  predicate IsOp(node: Node) {
    node.Pipe? || node.And? || node.Or?
  }

  // ----- environment assignments -------------------------------------------

  predicate IsWordChar(c: char) {
    'a' <= c <= 'z' || 'A' <= c <= 'Z' || '0' <= c <= '9' || c == '_'
  }

  /** White space as `\s` matches it in text patterns. */
  predicate IsSpace(c: char) {
    var u := c as int;
    || 0x09 <= u <= 0x0d || 0x1c <= u <= 0x20 || u == 0x85 || u == 0xa0 || u == 0x1680
    || 0x2000 <= u <= 0x200a || u == 0x2028 || u == 0x2029 || u == 0x202f || u == 0x205f || u == 0x3000
  }

  predicate IsEnvName(s: string) {
    s != "" && forall i :: 0 <= i < |s| ==> IsWordChar(s[i])
  }

  predicate IsEnvValue(s: string) {
    s != "" && forall i :: 0 <= i < |s| ==> !IsSpace(s[i])
  }

  /** Where the first '=' is, or the length. */
  function FirstEquals(s: string): (k: nat)
    ensures k <= |s|
    ensures '=' !in s[..k]
    ensures k < |s| ==> s[k] == '='
  {
    if s == "" || s[0] == '=' then 0
    else
      var k := FirstEquals(s[1..]) + 1;
      assert s[..k] == [s[0]] + s[1..][..k - 1];
      k
  }

  /** The match of `^([a-zA-Z0-9_]+)=(\S+)$`; the end may be followed by one newline. */
  function EnvMatch(token: string): Option<(string, string)> {
    var k := FirstEquals(token);
    if k == |token| || !IsEnvName(token[..k]) then None
    else
      var value := token[k + 1..];
      if IsEnvValue(value) then Some((token[..k], value))
      else if value != "" && value[|value| - 1] == '\n' && IsEnvValue(value[..|value| - 1]) then
        Some((token[..k], value[..|value| - 1]))
      else None
  }

  /** The pattern matches a name, an equals sign and a value, with at most a newline behind it, and nothing else. */
  lemma EnvMatchIff(token: string, name: string, value: string)
    ensures EnvMatch(token) == Some((name, value)) <==>
      && IsEnvName(name) && IsEnvValue(value)
      && (token == name + "=" + value || token == name + "=" + value + "\n")
  {
    hide EnvMatch, IsEnvName, IsEnvValue;
    if EnvMatch(token) == Some((name, value)) {
      EnvMatchOnly(token);
    }
    if IsEnvName(name) && IsEnvValue(value) {
      if token == name + "=" + value {
        EnvMatchPrinted(name, value);
      } else if token == name + "=" + value + "\n" {
        EnvMatchLine(name, value);
      }
    }
  }

  lemma EnvMatchOnly(token: string)
    requires EnvMatch(token).Some?
    ensures var (name, value) := EnvMatch(token).value;
      && IsEnvName(name) && IsEnvValue(value)
      && (token == name + "=" + value || token == name + "=" + value + "\n")
  {
    hide IsEnvName, IsEnvValue;
    var k := FirstEquals(token);
    var rest := token[k + 1..];
    assert token == token[..k] + "=" + rest;
    if !IsEnvValue(rest) {
      assert rest == rest[..|rest| - 1] + "\n";
      assert token == token[..k] + "=" + rest[..|rest| - 1] + "\n";
    }
  }

  lemma EnvMatchLine(name: string, value: string)
    requires IsEnvName(name) && IsEnvValue(value)
    ensures EnvMatch(name + "=" + value + "\n") == Some((name, value))
  {
    var line := value + "\n";
    var token := name + "=" + line;
    assert token == name + "=" + value + "\n";
    FirstEqualsOfName(name, line);
    assert token[..|name|] == name && token[|name| + 1..] == line && line[..|value|] == value;
    assert !IsEnvValue(line) by {
      assert line[|value|] == '\n';
    }
    hide IsEnvName, FirstEquals;
  }

  // ----- the parser --------------------------------------------------------

  datatype Mode = Begin | InCommand | InChdir | InStderr | InStdout | InStdin

  datatype Parser = Parser(mode: Mode, current: Option<Node>, envVars: map<string, string>, pipeline: seq<Node>)

  const START := Parser(Begin, None, map[], [])

  /** Which kind of node each state is filling. */
  predicate Fits(p: Parser) {
    match p.mode
    case Begin => p.current == None
    case InChdir => p.current.Some? && p.current.value.Chdir?
    case _ => p.current.Some? && p.current.value.Run?
  }

  function NewCommand(name: string, envVars: map<string, string>): Command {
    Command(name, [name], None, Inherit, Inherit, envVars)
  }

  function WithOp(p: Parser, node: Node, op: Node): Parser {
    Parser(Begin, None, p.envVars, p.pipeline + [node, op])
  }

  function CommandToken(p: Parser, c: Command, token: string): Result<Parser, AssertionError> {
    if token == ">" then Ok(p.(mode := InStdout))
    else if token == "2>" then Ok(p.(mode := InStderr))
    else if token == "2>&1" then
      if c.stderr == Inherit then Ok(p.(current := Some(Run(c.(stderr := ToStdout))))) else Err(AssertionError)
    else if token == "<" then Ok(p.(mode := InStdin))
    else if token == "|" then
      if c.stdout == Inherit then Ok(WithOp(p, Run(c.(stdout := ToPipe)), Pipe)) else Err(AssertionError)
    else if token == "&&" then Ok(WithOp(p, Run(c), And))
    else if token == "||" then Ok(WithOp(p, Run(c), Or))
    else Ok(p.(current := Some(Run(c.(argv := c.argv + [token])))))
  }

  /** What one token does. */
  function Step(p: Parser, token: string): (r: Result<Parser, AssertionError>)
    requires Fits(p)
    ensures r.Ok? ==> Fits(r.value)
  {
    match p.mode
    case Begin =>
      var m := EnvMatch(token);
      if m.Some? then Ok(p.(envVars := p.envVars[m.value.0 := m.value.1]))
      else if token == "cd" then
        if p.envVars == map[] then Ok(p.(mode := InChdir, current := Some(Chdir(None)))) else Err(AssertionError)
      else Ok(p.(mode := InCommand, current := Some(Run(NewCommand(token, p.envVars))), envVars := map[]))
    case InCommand => CommandToken(p, p.current.value.command, token)
    case InChdir =>
      if token == "&&" then Ok(WithOp(p, p.current.value, And))
      else if p.current.value.dir == None then Ok(p.(current := Some(Chdir(Some(token))))) else Err(AssertionError)
    case InStdout =>
      var c := p.current.value.command;
      if c.stdout == Inherit then Ok(p.(mode := InCommand, current := Some(Run(c.(stdout := File(token))))))
      else Err(AssertionError)
    case InStderr =>
      var c := p.current.value.command;
      if c.stderr == Inherit then Ok(p.(mode := InCommand, current := Some(Run(c.(stderr := File(token))))))
      else Err(AssertionError)
    case InStdin =>
      var c := p.current.value.command;
      if c.stdin == None then Ok(p.(mode := InCommand, current := Some(Run(c.(stdin := Some(token))))))
      else Err(AssertionError)
  }

  function Feed(p: Parser, tokens: seq<string>): (r: Result<Parser, AssertionError>)
    requires Fits(p)
    ensures r.Ok? ==> Fits(r.value)
    decreases |tokens|
  {
    if tokens == [] then Ok(p)
    else
      var next := Step(p, tokens[0]);
      if next.Ok? then Feed(next.value, tokens[1..]) else next
  }

  /** The final commit. */
  function Finish(p: Parser): Result<seq<Node>, AssertionError> {
    if p.current.Some? then Ok(p.pipeline + [p.current.value]) else Err(AssertionError)
  }

  function ParseFrom(p: Parser, tokens: seq<string>): Result<seq<Node>, AssertionError>
    requires Fits(p)
  {
    var r := Feed(p, tokens);
    if r.Ok? then Finish(r.value) else Err(AssertionError)
  }

  function ParseTokens(tokens: seq<string>): Result<seq<Node>, AssertionError> {
    ParseFrom(START, tokens)
  }

  // ----- the pipelines that some token list denotes --------------------------

  predicate IsOperatorToken(s: string) {
    s == ">" || s == "2>" || s == "2>&1" || s == "<" || s == "|" || s == "&&" || s == "||"
  }

  predicate EnvOk(envVars: map<string, string>) {
    forall k :: k in envVars ==> IsEnvName(k) && IsEnvValue(envVars[k])
  }

  /** Words that the parser can have read as this command, with nothing said about stdout. */
  predicate CommandOk(c: Command) {
    && c.name != "cd" && EnvMatch(c.name) == None
    && c.argv != [] && c.argv[0] == c.name
    && (forall i :: 1 <= i < |c.argv| ==> !IsOperatorToken(c.argv[i]))
    && EnvOk(c.envVars)
    && c.stderr != ToPipe && c.stderr != ToShellStdout
    && c.stdout != ToStdout && c.stdout != ToShellStdout
  }

  /** A node in operand position, and what stands after it. */
  predicate OperandOk(node: Node, next: Option<Node>) {
    match node
    case Run(c) => CommandOk(c) && (c.stdout == ToPipe <==> next == Some(Pipe))
    case Chdir(dir) => dir != Some("&&") && (next == None || next == Some(And))
    case _ => false
  }

  function NextNode(pipeline: seq<Node>, i: nat): Option<Node> {
    if i + 1 < |pipeline| then Some(pipeline[i + 1]) else None
  }

  predicate PositionOk(pipeline: seq<Node>, i: nat)
    requires i < |pipeline|
  {
    if i % 2 == 0 then OperandOk(pipeline[i], NextNode(pipeline, i)) else IsOp(pipeline[i])
  }

  /** Operands and operators alternate, starting and ending with an operand. */
  ghost predicate WellFormed(pipeline: seq<Node>) {
    |pipeline| % 2 == 1 && forall i: nat :: i < |pipeline| ==> PositionOk(pipeline, i)
  }

  // ----- whatever is accepted is well formed ---------------------------------

  ghost predicate ParserOk(p: Parser) {
    && Fits(p)
    && EnvOk(p.envVars)
    && |p.pipeline| % 2 == 0
    && (forall i: nat :: i < |p.pipeline| ==> PositionOk(p.pipeline, i))
    && (p.current.Some? && p.current.value.Run? ==>
          CommandOk(p.current.value.command) && p.current.value.command.stdout != ToPipe)
    && (p.current.Some? && p.current.value.Chdir? ==> p.current.value.dir != Some("&&"))
    && (p.mode != Begin ==> p.envVars == map[])
  }

  lemma EnvMatchOk(token: string)
    ensures EnvMatch(token).Some? ==> IsEnvName(EnvMatch(token).value.0) && IsEnvValue(EnvMatch(token).value.1)
  {
  }

  lemma PairAppended(pipeline: seq<Node>, node: Node, op: Node)
    requires |pipeline| % 2 == 0 && forall i: nat :: i < |pipeline| ==> PositionOk(pipeline, i)
    requires OperandOk(node, Some(op)) && IsOp(op)
    ensures var more := pipeline + [node, op];
            |more| % 2 == 0 && forall i: nat :: i < |more| ==> PositionOk(more, i)
  {
    var more := pipeline + [node, op];
    forall i: nat | i < |more| ensures PositionOk(more, i) {
      if i < |pipeline| {
        assert PositionOk(pipeline, i);
      }
    }
  }

  lemma CommandTokenKeepsOk(p: Parser, c: Command, token: string)
    requires ParserOk(p) && p.mode == InCommand && p.current == Some(Run(c)) && CommandToken(p, c, token).Ok?
    ensures ParserOk(CommandToken(p, c, token).value)
  {
    var q := CommandToken(p, c, token).value;
    if token == "|" || token == "&&" || token == "||" {
      PairAppended(p.pipeline, q.pipeline[|p.pipeline|], q.pipeline[|p.pipeline| + 1]);
    } else {
      assert q.pipeline == p.pipeline;
    }
  }

  lemma StepKeepsOk(p: Parser, token: string)
    requires ParserOk(p) && Step(p, token).Ok?
    ensures ParserOk(Step(p, token).value)
  {
    hide PositionOk, EnvMatch, CommandToken;
    if p.mode == InCommand {
      CommandTokenKeepsOk(p, p.current.value.command, token);
    } else if p.mode == Begin {
      EnvMatchOk(token);
    } else if p.mode == InChdir {
      if token == "&&" {
        PairAppended(p.pipeline, p.current.value, And);
      }
    }
  }

  lemma {:induction false} FeedKeepsOk(p: Parser, tokens: seq<string>)
    requires ParserOk(p) && Feed(p, tokens).Ok?
    ensures ParserOk(Feed(p, tokens).value)
    decreases |tokens|
  {
    if tokens != [] {
      StepKeepsOk(p, tokens[0]);
      FeedKeepsOk(Step(p, tokens[0]).value, tokens[1..]);
    }
  }

  lemma ParsedIsWellFormed(tokens: seq<string>)
    requires ParseTokens(tokens).Ok?
    ensures WellFormed(ParseTokens(tokens).value)
  {
    FeedKeepsOk(START, tokens);
    var p := Feed(START, tokens).value;
    var all := p.pipeline + [p.current.value];
    forall i: nat | i < |all| ensures PositionOk(all, i) {
      if i < |p.pipeline| {
        assert PositionOk(p.pipeline, i);
      }
    }
  }

  // ----- printing ------------------------------------------------------------

  /** Some order in which the assignments of a table are listed. */
  type Listing = map<string, string> -> seq<string>

  ghost predicate IsListing(order: Listing) {
    forall envVars: map<string, string> :: (set k | k in order(envVars)) == envVars.Keys
  }

  function PrintEnv(keys: seq<string>, envVars: map<string, string>): seq<string>
    requires forall k :: k in keys ==> k in envVars
  {
    if keys == [] then [] else [keys[0] + "=" + envVars[keys[0]]] + PrintEnv(keys[1..], envVars)
  }

  function PrintCommand(c: Command, keys: seq<string>): seq<string>
    requires forall k :: k in keys ==> k in c.envVars
  {
    PrintEnv(keys, c.envVars)
    + c.argv
    + (if c.stdin.Some? then ["<", c.stdin.value] else [])
    + (if c.stdout.File? then [">", c.stdout.name] else [])
    + (if c.stderr.File? then ["2>", c.stderr.name] else if c.stderr.ToStdout? then ["2>&1"] else [])
  }

  function PrintNode(node: Node, order: Listing): seq<string>
    requires node.Run? ==> forall k :: k in order(node.command.envVars) ==> k in node.command.envVars
  {
    match node
    case Run(c) => PrintCommand(c, order(c.envVars))
    case Chdir(dir) => ["cd"] + if dir.Some? then [dir.value] else []
    case Pipe => ["|"]
    case And => ["&&"]
    case Or => ["||"]
  }

  ghost function Print(pipeline: seq<Node>, order: Listing): seq<string>
    requires IsListing(order)
  {
    if pipeline == [] then []
    else
      assert pipeline[0].Run? ==> (set k | k in order(pipeline[0].command.envVars)) == pipeline[0].command.envVars.Keys;
      PrintNode(pipeline[0], order) + Print(pipeline[1..], order)
  }

  // ----- parsing undoes printing ---------------------------------------------

  lemma {:induction false} FeedConcat(p: Parser, a: seq<string>, b: seq<string>)
    requires Fits(p) && Feed(p, a).Ok?
    ensures Feed(p, a + b) == Feed(Feed(p, a).value, b)
    decreases |a|
  {
    if a == [] {
      assert a + b == b;
    } else {
      assert (a + b)[1..] == a[1..] + b;
      FeedConcat(Step(p, a[0]).value, a[1..], b);
    }
  }

  lemma {:induction false} FirstEqualsOfName(name: string, rest: string)
    requires forall i :: 0 <= i < |name| ==> IsWordChar(name[i])
    ensures FirstEquals(name + "=" + rest) == |name|
  {
    if name != "" {
      FirstEqualsOfName(name[1..], rest);
      assert (name + "=" + rest)[1..] == name[1..] + "=" + rest;
    }
  }

  lemma EnvMatchPrinted(name: string, value: string)
    requires IsEnvName(name) && IsEnvValue(value)
    ensures EnvMatch(name + "=" + value) == Some((name, value))
  {
    var s := name + "=" + value;
    FirstEqualsOfName(name, value);
    assert s[..|name|] == name && s[|name| + 1..] == value;
  }

  function Overlay(base: map<string, string>, keys: seq<string>, envVars: map<string, string>): map<string, string>
    requires forall k :: k in keys ==> k in envVars
    decreases |keys|
  {
    if keys == [] then base else Overlay(base[keys[0] := envVars[keys[0]]], keys[1..], envVars)
  }

  lemma {:induction false} OverlayMeaning(base: map<string, string>, keys: seq<string>, envVars: map<string, string>)
    requires forall k :: k in keys ==> k in envVars
    ensures var r := Overlay(base, keys, envVars);
      && (forall k :: k in r <==> k in base || k in keys)
      && (forall k :: k in keys ==> r[k] == envVars[k])
      && (forall k :: k in base && k !in keys ==> r[k] == base[k])
    decreases |keys|
  {
    if keys != [] {
      OverlayMeaning(base[keys[0] := envVars[keys[0]]], keys[1..], envVars);
      assert forall k :: k in keys <==> k == keys[0] || k in keys[1..];
    }
  }

  lemma {:induction false} FeedEnv(base: map<string, string>, pipeline: seq<Node>, keys: seq<string>,
                                   envVars: map<string, string>)
    requires EnvOk(envVars) && forall k :: k in keys ==> k in envVars
    ensures Feed(Parser(Begin, None, base, pipeline), PrintEnv(keys, envVars))
         == Ok(Parser(Begin, None, Overlay(base, keys, envVars), pipeline))
    decreases |keys|
  {
    if keys != [] {
      EnvMatchPrinted(keys[0], envVars[keys[0]]);
      FeedEnv(base[keys[0] := envVars[keys[0]]], pipeline, keys[1..], envVars);
    }
  }

  lemma {:induction false} FeedArgs(c: Command, pipeline: seq<Node>, args: seq<string>)
    requires forall i :: 0 <= i < |args| ==> !IsOperatorToken(args[i])
    ensures Feed(Parser(InCommand, Some(Run(c)), map[], pipeline), args)
         == Ok(Parser(InCommand, Some(Run(c.(argv := c.argv + args))), map[], pipeline))
    decreases |args|
  {
    if args == [] {
      assert c.argv + args == c.argv;
    } else {
      FeedArgs(c.(argv := c.argv + [args[0]]), pipeline, args[1..]);
      assert c.argv + [args[0]] + args[1..] == c.argv + args;
    }
  }

  lemma FeedOne(p: Parser, a: string)
    requires Fits(p)
    ensures Feed(p, [a]) == Step(p, a)
  {
  }

  lemma FeedTwo(p: Parser, a: string, b: string)
    requires Fits(p) && Step(p, a).Ok?
    ensures Feed(p, [a, b]) == Step(Step(p, a).value, b)
  {
    hide Step;
    assert [a, b][1..] == [b];
    FeedOne(Step(p, a).value, b);
  }

  /** The part of a command that its own words show; that stdout is a pipe is shown by the operator. */
  function Shown(c: Command): Command {
    if c.stdout == ToPipe then c.(stdout := Inherit) else c
  }

  function Reading(c: Command, pipeline: seq<Node>): Parser {
    Parser(InCommand, Some(Run(c)), map[], pipeline)
  }

  lemma FeedWords(c: Command, pipeline: seq<Node>)
    requires CommandOk(c)
    ensures Feed(Parser(Begin, None, c.envVars, pipeline), c.argv)
         == Ok(Reading(NewCommand(c.name, c.envVars).(argv := c.argv), pipeline))
  {
    var args := c.argv[1..];
    assert c.argv == [c.name] + args;
    FeedArgs(NewCommand(c.name, c.envVars), pipeline, args);
  }

  lemma FeedStdin(c: Command, pipeline: seq<Node>, stdin: Option<string>)
    requires c.stdin == None
    ensures Feed(Reading(c, pipeline), if stdin.Some? then ["<", stdin.value] else [])
         == Ok(Reading(c.(stdin := stdin), pipeline))
  {
    if stdin.Some? {
      FeedTwo(Reading(c, pipeline), "<", stdin.value);
    }
  }

  lemma FeedStdout(c: Command, pipeline: seq<Node>, stdout: Redirect)
    requires c.stdout == Inherit
    ensures Feed(Reading(c, pipeline), if stdout.File? then [">", stdout.name] else [])
         == Ok(Reading(if stdout.File? then c.(stdout := stdout) else c, pipeline))
  {
    if stdout.File? {
      FeedTwo(Reading(c, pipeline), ">", stdout.name);
    }
  }

  lemma FeedStderr(c: Command, pipeline: seq<Node>, stderr: Redirect)
    requires c.stderr == Inherit && stderr != ToPipe && stderr != ToShellStdout
    ensures Feed(Reading(c, pipeline),
                 if stderr.File? then ["2>", stderr.name] else if stderr.ToStdout? then ["2>&1"] else [])
         == Ok(Reading(c.(stderr := stderr), pipeline))
  {
    match stderr
    case File(name) => FeedTwo(Reading(c, pipeline), "2>", name);
    case ToStdout => FeedOne(Reading(c, pipeline), "2>&1");
    case Inherit =>
  }

  lemma FeedCommand(c: Command, keys: seq<string>, pipeline: seq<Node>)
    requires CommandOk(c) && (set k | k in keys) == c.envVars.Keys
    ensures forall k :: k in keys ==> k in c.envVars
    ensures Feed(Parser(Begin, None, map[], pipeline), PrintCommand(c, keys)) == Ok(Reading(Shown(c), pipeline))
  {
    forall k | k in keys ensures k in c.envVars {
      assert k in (set k' | k' in keys);
    }
    var c1 := NewCommand(c.name, c.envVars).(argv := c.argv);
    var c2 := c1.(stdin := c.stdin);
    var c3 := if c.stdout.File? then c2.(stdout := c.stdout) else c2;
    assert c3.(stderr := c.stderr) == Shown(c);
    FeedAllEnv(c.envVars, keys, pipeline);
    FeedWords(c, pipeline);
    FeedStdin(c1, pipeline, c.stdin);
    FeedStdout(c2, pipeline, c.stdout);
    FeedStderr(c3, pipeline, c.stderr);
    FeedFive(Parser(Begin, None, map[], pipeline), PrintEnv(keys, c.envVars), c.argv,
             if c.stdin.Some? then ["<", c.stdin.value] else [],
             if c.stdout.File? then [">", c.stdout.name] else [],
             if c.stderr.File? then ["2>", c.stderr.name] else if c.stderr.ToStdout? then ["2>&1"] else []);
  }

  lemma FeedAllEnv(envVars: map<string, string>, keys: seq<string>, pipeline: seq<Node>)
    requires EnvOk(envVars) && (set k | k in keys) == envVars.Keys && forall k :: k in keys ==> k in envVars
    ensures Feed(Parser(Begin, None, map[], pipeline), PrintEnv(keys, envVars))
         == Ok(Parser(Begin, None, envVars, pipeline))
  {
    FeedEnv(map[], pipeline, keys, envVars);
    OverlayMeaning(map[], keys, envVars);
    forall k ensures k in envVars <==> k in keys {
      assert k in envVars.Keys <==> k in (set k' | k' in keys);
    }
    assert Overlay(map[], keys, envVars) == envVars;
  }

  lemma FeedFive(p: Parser, a: seq<string>, b: seq<string>, c: seq<string>, d: seq<string>, e: seq<string>)
    requires Fits(p) && Feed(p, a).Ok? && Feed(Feed(p, a).value, b).Ok?
    requires var q := Feed(Feed(p, a).value, b).value; Feed(q, c).Ok? && Feed(Feed(q, c).value, d).Ok?
    ensures var q := Feed(Feed(p, a).value, b).value;
            Feed(p, a + b + c + d + e) == Feed(Feed(Feed(q, c).value, d).value, e)
  {
    hide Feed;
    FeedConcat(p, a, b);
    FeedConcat(p, a + b, c);
    FeedConcat(p, a + b + c, d);
    FeedConcat(p, a + b + c + d, e);
  }

  /** An operand with the operator behind it. */
  lemma FeedOperand(node: Node, op: Node, order: Listing, pipeline: seq<Node>)
    requires IsListing(order) && OperandOk(node, Some(op)) && IsOp(op)
    ensures node.Run? ==> forall k :: k in order(node.command.envVars) ==> k in node.command.envVars
    ensures Feed(Parser(Begin, None, map[], pipeline), PrintNode(node, order) + PrintNode(op, order))
         == Ok(Parser(Begin, None, map[], pipeline + [node, op]))
  {
    hide Feed, PrintCommand, CommandOk, EnvMatch;
    var p0 := Parser(Begin, None, map[], pipeline);
    FeedLastOperand(node, Some(op), order, pipeline);
    FeedConcat(p0, PrintNode(node, order), PrintNode(op, order));
    FeedOne(Feed(p0, PrintNode(node, order)).value, PrintNode(op, order)[0]);
  }

  lemma FeedLastOperand(node: Node, next: Option<Node>, order: Listing, pipeline: seq<Node>)
    requires IsListing(order) && OperandOk(node, next)
    ensures node.Run? ==> forall k :: k in order(node.command.envVars) ==> k in node.command.envVars
    ensures Feed(Parser(Begin, None, map[], pipeline), PrintNode(node, order))
         == Ok(if node.Run? then Reading(Shown(node.command), pipeline)
               else Parser(InChdir, Some(node), map[], pipeline))
  {
    var p0 := Parser(Begin, None, map[], pipeline);
    match node
    case Run(c) =>
      assert (set k | k in order(c.envVars)) == c.envVars.Keys;
      FeedCommand(c, order(c.envVars), pipeline);
    case Chdir(dir) =>
      assert FirstEquals("cd") == 2;
      if dir.Some? {
        FeedTwo(p0, "cd", dir.value);
        assert ["cd"] + [dir.value] == ["cd", dir.value];
      } else {
        FeedOne(p0, "cd");
      }
  }

  lemma PrintPair(pipeline: seq<Node>, order: Listing, i: nat)
    requires IsListing(order) && i + 1 < |pipeline|
    ensures forall j :: i <= j < |pipeline| && pipeline[j].Run? ==>
              forall k :: k in order(pipeline[j].command.envVars) ==> k in pipeline[j].command.envVars
    ensures Print(pipeline[i..], order)
         == PrintNode(pipeline[i], order) + PrintNode(pipeline[i + 1], order) + Print(pipeline[i + 2..], order)
  {
  }

  /** The parser between two operands. */
  function Between(pipeline: seq<Node>): Parser {
    Parser(Begin, None, map[], pipeline)
  }

  lemma RoundTripLast(pipeline: seq<Node>, order: Listing)
    requires WellFormed(pipeline) && IsListing(order)
    ensures var i := |pipeline| - 1;
            ParseFrom(Between(pipeline[..i]), Print(pipeline[i..], order)) == Ok(pipeline)
  {
    var i := |pipeline| - 1;
    assert PositionOk(pipeline, i);
    var node, rest := pipeline[i], pipeline[i..];
    assert rest[0] == node && rest[1..] == [];
    FeedLastOperand(node, None, order, pipeline[..i]);
    hide Feed, Step, PrintNode;
    assert Print(rest, order) == PrintNode(node, order) + [];
    assert PrintNode(node, order) + [] == PrintNode(node, order);
    assert pipeline == pipeline[..i] + [node];
  }

  lemma RoundTripStep(pipeline: seq<Node>, order: Listing, i: nat)
    requires IsListing(order) && i + 2 <= |pipeline|
    requires OperandOk(pipeline[i], Some(pipeline[i + 1])) && IsOp(pipeline[i + 1])
    ensures ParseFrom(Between(pipeline[..i]), Print(pipeline[i..], order))
         == ParseFrom(Between(pipeline[..i + 2]), Print(pipeline[i + 2..], order))
  {
    hide Feed, Step, PrintNode, Print, OperandOk;
    PrintPair(pipeline, order, i);
    FeedOperand(pipeline[i], pipeline[i + 1], order, pipeline[..i]);
    assert pipeline[..i + 2] == pipeline[..i] + [pipeline[i], pipeline[i + 1]];
    FeedConcat(Between(pipeline[..i]),
               PrintNode(pipeline[i], order) + PrintNode(pipeline[i + 1], order), Print(pipeline[i + 2..], order));
  }

  lemma {:induction false} RoundTripFrom(pipeline: seq<Node>, order: Listing, i: nat)
    requires WellFormed(pipeline) && IsListing(order) && i < |pipeline| && i % 2 == 0
    ensures ParseFrom(Between(pipeline[..i]), Print(pipeline[i..], order)) == Ok(pipeline)
    decreases |pipeline| - i
  {
    hide ParseFrom, Print, OperandOk, Between;
    assert PositionOk(pipeline, i);
    if i + 1 == |pipeline| {
      RoundTripLast(pipeline, order);
    } else {
      assert PositionOk(pipeline, i + 1);
      RoundTripStep(pipeline, order, i);
      RoundTripFrom(pipeline, order, i + 2);
    }
  }

  /** Parsing what a well-formed pipeline prints gives the pipeline back. */
  lemma ParsePrinted(pipeline: seq<Node>, order: Listing)
    requires WellFormed(pipeline) && IsListing(order)
    ensures ParseTokens(Print(pipeline, order)) == Ok(pipeline)
  {
    RoundTripFrom(pipeline, order, 0);
    assert pipeline[..0] == [] && pipeline[0..] == pipeline;
  }

  ghost function ListKeys(envVars: map<string, string>): (keys: seq<string>)
    ensures (set k | k in keys) == envVars.Keys
    decreases |envVars|
  {
    if envVars.Keys == {} then []
    else
      var k :| k in envVars;
      var rest := ListKeys(envVars - {k});
      assert forall x :: x in [k] + rest <==> x == k || x in rest;
      assert (set x | x in [k] + rest) == {k} + set x | x in rest;
      [k] + rest
  }

  /** The parser's results are exactly the well-formed pipelines. */
  lemma ParserRange(pipeline: seq<Node>)
    ensures WellFormed(pipeline) <==> exists tokens :: ParseTokens(tokens) == Ok(pipeline)
  {
    var order: Listing := envVars => ListKeys(envVars);
    if WellFormed(pipeline) {
      ParsePrinted(pipeline, order);
    }
    if tokens :| ParseTokens(tokens) == Ok(pipeline) {
      ParsedIsWellFormed(tokens);
    }
  }

  /** Parsing is insensitive to how a command line is spelled: printing what was parsed and
      parsing again changes nothing. */
  lemma ParseIsStable(tokens: seq<string>, order: Listing)
    requires ParseTokens(tokens).Ok? && IsListing(order)
    ensures ParseTokens(Print(ParseTokens(tokens).value, order)) == ParseTokens(tokens)
  {
    ParsedIsWellFormed(tokens);
    ParsePrinted(ParseTokens(tokens).value, order);
  }
}
