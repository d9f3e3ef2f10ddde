/** What the parser makes of the tokens it accepts, said of the tokens alone: every operand has the words, the
    assignments, the files and the directory that stand in it, wherever in it they stand. */
module ShellMeaning {
  import opened Results
  import opened ShellSyntax
  import opened ShellParseErrors

  /** The token is a word of its command. */
  predicate IsWord(tokens: seq<string>, k: nat)
    requires k < |tokens|
  {
    || (ModeAt(tokens, k) == Begin && EnvMatch(tokens[k]) == None && tokens[k] != "cd")
    || (ModeAt(tokens, k) == InCommand && !IsOperatorToken(tokens[k]))
  }

  // In front of the `k`-th token, since the last operator between operands:

  function Words(tokens: seq<string>, k: nat): seq<string>
    requires k <= |tokens|
  {
    if k == 0 || Joins(tokens, k - 1) then []
    else Words(tokens, k - 1) + if IsWord(tokens, k - 1) then [tokens[k - 1]] else []
  }

  function Assigned(tokens: seq<string>, k: nat): map<string, string>
    requires k <= |tokens|
  {
    if k == 0 || Joins(tokens, k - 1) then map[]
    else if Does(tokens, k - 1, Assigns) then
      Assigned(tokens, k - 1)[EnvMatch(tokens[k - 1]).value.0 := EnvMatch(tokens[k - 1]).value.1]
    else Assigned(tokens, k - 1)
  }

  /** The token that does this. */
  function Doer(tokens: seq<string>, k: nat, deed: Deed): Option<string>
    requires k <= |tokens|
  {
    if k == 0 || Joins(tokens, k - 1) then None
    else if Does(tokens, k - 1, deed) then Some(tokens[k - 1])
    else Doer(tokens, k - 1, deed)
  }

  /** Where the errors go: to a named file, or with the output. */
  function ErrorsTo(tokens: seq<string>, k: nat): Redirect
    requires k <= |tokens|
  {
    if k == 0 || Joins(tokens, k - 1) then Inherit
    else if Does(tokens, k - 1, SetsErr) then
      if ModeAt(tokens, k - 1) == InStderr then File(tokens[k - 1]) else ToStdout
    else ErrorsTo(tokens, k - 1)
  }

  function OutputTo(tokens: seq<string>, k: nat): Redirect
    requires k <= |tokens|
  {
    var file := Doer(tokens, k, SetsOut);
    if file.Some? then File(file.value) else Inherit
  }

  /** The operand in front of the `k`-th token. */
  function OperandAt(tokens: seq<string>, k: nat): Option<Node>
    requires k <= |tokens|
  {
    match ModeAt(tokens, k)
    case Begin => None
    case InChdir => Some(Chdir(Doer(tokens, k, SetsDir)))
    case _ =>
      var words := Words(tokens, k);
      if words == [] then None
      else
        Some(Run(Command(words[0], words, Doer(tokens, k, SetsIn), OutputTo(tokens, k), ErrorsTo(tokens, k),
                         Assigned(tokens, k))))
  }

  function Piped(node: Node): Node {
    if node.Run? then Run(node.command.(stdout := ToPipe)) else node
  }

  /** The operands that are complete, each with the operator behind it. */
  function NodesAt(tokens: seq<string>, k: nat): seq<Node>
    requires k <= |tokens|
  {
    if k == 0 then []
    else if !Joins(tokens, k - 1) || OperandAt(tokens, k - 1) == None then NodesAt(tokens, k - 1)
    else
      var node := OperandAt(tokens, k - 1).value;
      NodesAt(tokens, k - 1) +
      if tokens[k - 1] == "|" then [Piped(node), Pipe]
      else [node, if tokens[k - 1] == "&&" then And else Or]
  }

  // ----- the parser computes it ---------------------------------------------------

  ghost predicate Means(tokens: seq<string>, k: nat, p: Parser)
    requires k <= |tokens| && Fits(p)
  {
    && p.mode == ModeAt(tokens, k)
    && p.current == OperandAt(tokens, k)
    && p.pipeline == NodesAt(tokens, k)
    && (p.mode != Begin ==> p.envVars == map[])
    && (p.mode == Begin ==> p.envVars == Assigned(tokens, k) && FreshAt(tokens, k))
  }

  /** Nothing but assignments has been read. */
  ghost predicate FreshAt(tokens: seq<string>, k: nat)
    requires k <= |tokens|
  {
    && Words(tokens, k) == [] && ErrorsTo(tokens, k) == Inherit
    && forall deed :: deed != Assigns ==> Doer(tokens, k, deed) == None
  }

  /** A token that does not end its operand. */
  lemma TokenInside(tokens: seq<string>, k: nat)
    requires k < |tokens| && !Joins(tokens, k)
    ensures Words(tokens, k + 1) == if IsWord(tokens, k) then Words(tokens, k) + [tokens[k]] else Words(tokens, k)
    ensures forall deed :: Doer(tokens, k + 1, deed) ==
              if Does(tokens, k, deed) then Some(tokens[k]) else Doer(tokens, k, deed)
    ensures ErrorsTo(tokens, k + 1) ==
      if Does(tokens, k, SetsErr) then (if ModeAt(tokens, k) == InStderr then File(tokens[k]) else ToStdout)
      else ErrorsTo(tokens, k)
    ensures Assigned(tokens, k + 1) ==
      if Does(tokens, k, Assigns) then
        Assigned(tokens, k)[EnvMatch(tokens[k]).value.0 := EnvMatch(tokens[k]).value.1]
      else Assigned(tokens, k)
    ensures NodesAt(tokens, k + 1) == NodesAt(tokens, k)
  {
  }

  /** The operator behind an operand. */
  lemma TokenBehind(tokens: seq<string>, k: nat)
    requires k < |tokens| && Joins(tokens, k) && OperandAt(tokens, k).Some?
    ensures FreshAt(tokens, k + 1) && Assigned(tokens, k + 1) == map[]
    ensures var node := OperandAt(tokens, k).value;
      NodesAt(tokens, k + 1) == NodesAt(tokens, k) +
      if tokens[k] == "|" then [Piped(node), Pipe] else [node, if tokens[k] == "&&" then And else Or]
  {
  }

  lemma StepMeans(tokens: seq<string>, k: nat, p: Parser)
    requires k < |tokens| && Fits(p) && Means(tokens, k, p) && Step(p, tokens[k]).Ok?
    ensures Means(tokens, k + 1, Step(p, tokens[k]).value)
  {
    match p.mode
    case Begin => BeginMeans(tokens, k, p);
    case InCommand => CommandMeans(tokens, k, p);
    case InChdir => ChdirMeans(tokens, k, p);
    case _ => FileMeans(tokens, k, p);
  }

  lemma BeginMeans(tokens: seq<string>, k: nat, p: Parser)
    requires k < |tokens| && Fits(p) && Means(tokens, k, p) && p.mode == Begin && Step(p, tokens[k]).Ok?
    ensures Means(tokens, k + 1, Step(p, tokens[k]).value)
  {
    hide EnvMatch, Words, Doer, ErrorsTo, Assigned, NodesAt;
    CdIsNoAssignment();
    TokenInside(tokens, k);
    assert Words(tokens, k) + [tokens[k]] == [tokens[k]];
    var next := k + 1;
    forall deed | deed != Assigns ensures Doer(tokens, next, deed) == None {
      assert Doer(tokens, k, deed) == None;
      assert !Does(tokens, k, deed);
    }
  }

  lemma CommandMeans(tokens: seq<string>, k: nat, p: Parser)
    requires k < |tokens| && Fits(p) && Means(tokens, k, p) && p.mode == InCommand && Step(p, tokens[k]).Ok?
    ensures Means(tokens, k + 1, Step(p, tokens[k]).value)
  {
    hide EnvMatch, Words, Doer, ErrorsTo, Assigned, NodesAt, FreshAt;
    if Joins(tokens, k) {
      TokenBehind(tokens, k);
    } else {
      TokenInside(tokens, k);
    }
  }

  lemma ChdirMeans(tokens: seq<string>, k: nat, p: Parser)
    requires k < |tokens| && Fits(p) && Means(tokens, k, p) && p.mode == InChdir && Step(p, tokens[k]).Ok?
    ensures Means(tokens, k + 1, Step(p, tokens[k]).value)
  {
    hide EnvMatch, Words, Doer, ErrorsTo, Assigned, NodesAt, FreshAt;
    if Joins(tokens, k) {
      TokenBehind(tokens, k);
    } else {
      TokenInside(tokens, k);
    }
  }

  lemma FileMeans(tokens: seq<string>, k: nat, p: Parser)
    requires k < |tokens| && Fits(p) && Means(tokens, k, p) && Step(p, tokens[k]).Ok?
    requires p.mode == InStdin || p.mode == InStdout || p.mode == InStderr
    ensures Means(tokens, k + 1, Step(p, tokens[k]).value)
  {
    hide EnvMatch, Words, Doer, ErrorsTo, Assigned, NodesAt, FreshAt;
    TokenInside(tokens, k);
  }

  lemma {:induction false} FeedMeans(tokens: seq<string>, k: nat)
    requires k <= |tokens| && Feed(START, tokens[..k]).Ok?
    ensures Means(tokens, k, Feed(START, tokens[..k]).value)
  {
    hide Means, Step;
    if k == 0 {
      NothingRead(tokens);
    } else {
      assert tokens[..k] == tokens[..k - 1] + [tokens[k - 1]];
      if Feed(START, tokens[..k - 1]).Err? {
        FeedFails(START, tokens[..k - 1], [tokens[k - 1]]);
      }
      FeedMeans(tokens, k - 1);
      FeedConcat(START, tokens[..k - 1], [tokens[k - 1]]);
      var before := Feed(START, tokens[..k - 1]).value;
      FeedOne(before, tokens[k - 1]);
      StepMeans(tokens, k - 1, before);
    }
  }

  lemma NothingRead(tokens: seq<string>)
    ensures Means(tokens, 0, START)
  {
  }

  /** The pipeline that is made of accepted tokens: the complete operands, each with the operator behind it, and
      the last operand. */
  lemma ParseMeaning(tokens: seq<string>)
    requires ParseTokens(tokens).Ok?
    ensures OperandAt(tokens, |tokens|).Some?
    ensures ParseTokens(tokens).value == NodesAt(tokens, |tokens|) + [OperandAt(tokens, |tokens|).value]
  {
    assert tokens[..|tokens|] == tokens;
    FeedMeans(tokens, |tokens|);
  }
}
