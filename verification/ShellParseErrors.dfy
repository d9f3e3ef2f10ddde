/** When the parser raises, said of the tokens alone. */
module ShellParseErrors {
  import opened Results
  import opened ShellSyntax

  // ----- what a token is for ------------------------------------------------------

  /** What the `k`-th token is read as, whatever has been redirected before. */
  function ModeAt(tokens: seq<string>, k: nat): Mode
    requires k <= |tokens|
  {
    if k == 0 then Begin
    else
      var token := tokens[k - 1];
      match ModeAt(tokens, k - 1)
      case Begin => if EnvMatch(token).Some? then Begin else if token == "cd" then InChdir else InCommand
      case InCommand =>
        if token == ">" then InStdout
        else if token == "2>" then InStderr
        else if token == "<" then InStdin
        else if token == "|" || token == "&&" || token == "||" then Begin
        else InCommand
      case InChdir => if token == "&&" then Begin else InChdir
      case _ => InCommand
  }

  /** The token ends its operand. */
  predicate Joins(tokens: seq<string>, k: nat)
    requires k < |tokens|
  {
    || (ModeAt(tokens, k) == InCommand && (tokens[k] == "|" || tokens[k] == "&&" || tokens[k] == "||"))
    || (ModeAt(tokens, k) == InChdir && tokens[k] == "&&")
  }

  datatype Deed = SetsIn | SetsOut | SetsErr | SetsDir | Assigns

  /** What a token does that its operand may do only once. */
  predicate Does(tokens: seq<string>, k: nat, deed: Deed)
    requires k < |tokens|
  {
    match deed
    case SetsIn => ModeAt(tokens, k) == InStdin
    case SetsOut => ModeAt(tokens, k) == InStdout
    case SetsErr => ModeAt(tokens, k) == InStderr || (ModeAt(tokens, k) == InCommand && tokens[k] == "2>&1")
    case SetsDir => ModeAt(tokens, k) == InChdir && tokens[k] != "&&"
    case Assigns => ModeAt(tokens, k) == Begin && EnvMatch(tokens[k]).Some?
  }

  /** An earlier token of the operand that the `k`-th token stands in has done it. */
  ghost predicate DidAt(tokens: seq<string>, j: nat, k: nat, deed: Deed)
    requires k <= |tokens|
  {
    j < k && Does(tokens, j, deed) && forall i :: j <= i < k ==> !Joins(tokens, i)
  }

  ghost predicate Done(tokens: seq<string>, k: nat, deed: Deed)
    requires k <= |tokens|
  {
    exists j: nat :: DidAt(tokens, j, k, deed)
  }

  ghost predicate Twice(tokens: seq<string>, k: nat, deed: Deed)
    requires k < |tokens|
  {
    Done(tokens, k, deed) && Does(tokens, k, deed)
  }

  /** A second input, output, error file or directory, a pipe behind an output, or `cd` behind an assignment. */
  ghost predicate Clashes(tokens: seq<string>, k: nat)
    requires k < |tokens|
  {
    || Twice(tokens, k, SetsIn) || Twice(tokens, k, SetsOut) || Twice(tokens, k, SetsErr) || Twice(tokens, k, SetsDir)
    || (Done(tokens, k, SetsOut) && ModeAt(tokens, k) == InCommand && tokens[k] == "|")
    || (Done(tokens, k, Assigns) && ModeAt(tokens, k) == Begin && tokens[k] == "cd")
  }

  // ----- the parser keeps count of it ------------------------------------------------

  lemma DoneStep(tokens: seq<string>, k: nat, deed: Deed)
    requires k < |tokens|
    ensures Done(tokens, k + 1, deed) <==> !Joins(tokens, k) && (Done(tokens, k, deed) || Does(tokens, k, deed))
  {
    hide Does, Joins;
    var next := k + 1;
    if j: nat :| DidAt(tokens, j, next, deed) {
      assert !Joins(tokens, k);
      assert j < k ==> DidAt(tokens, j, k, deed);
    }
    if !Joins(tokens, k) {
      if j: nat :| DidAt(tokens, j, k, deed) {
        assert DidAt(tokens, j, k + 1, deed);
      }
      if Does(tokens, k, deed) {
        assert DidAt(tokens, k, k + 1, deed);
      }
    }
  }

  /** What the parser knows of it. */
  predicate Knows(p: Parser, deed: Deed)
    requires Fits(p)
  {
    match p.mode
    case Begin => deed == Assigns && p.envVars != map[]
    case InChdir => deed == SetsDir && p.current.value.dir != None
    case _ =>
      var c := p.current.value.command;
      match deed
      case SetsIn => c.stdin != None
      case SetsOut => c.stdout != Inherit
      case SetsErr => c.stderr != Inherit
      case _ => false
  }

  ghost predicate InStep(tokens: seq<string>, k: nat, p: Parser)
    requires k <= |tokens| && Fits(p)
  {
    && p.mode == ModeAt(tokens, k) && (p.mode != Begin ==> p.envVars == map[])
    && forall deed :: deed != Assigns || p.mode == Begin ==> (Done(tokens, k, deed) <==> Knows(p, deed))
  }

  lemma StepRaises(tokens: seq<string>, k: nat, p: Parser)
    requires k < |tokens| && Fits(p) && InStep(tokens, k, p)
    ensures Step(p, tokens[k]).Err? <==> Clashes(tokens, k)
  {
    hide EnvMatch, Done;
    CdIsNoAssignment();
  }

  lemma CdIsNoAssignment()
    ensures EnvMatch("cd") == None
  {
    var k := FirstEquals("cd");
    assert forall i :: 0 <= i < 2 ==> "cd"[i] != '=';
  }

  lemma StepInStep(tokens: seq<string>, k: nat, p: Parser)
    requires k < |tokens| && Fits(p) && InStep(tokens, k, p) && Step(p, tokens[k]).Ok?
    ensures InStep(tokens, k + 1, Step(p, tokens[k]).value)
  {
    hide EnvMatch, Done;
    CdIsNoAssignment();
    var q := Step(p, tokens[k]).value;
    assert q.mode == ModeAt(tokens, k + 1);
    if p.mode == Begin && EnvMatch(tokens[k]).Some? {
      assert EnvMatch(tokens[k]).value.0 in q.envVars;
    }
    forall deed | deed != Assigns || q.mode == Begin ensures Done(tokens, k + 1, deed) <==> Knows(q, deed) {
      DoneStep(tokens, k, deed);
    }
  }

  lemma {:induction false} FeedRaises(tokens: seq<string>, k: nat)
    requires k <= |tokens|
    ensures var r := Feed(START, tokens[..k]);
      && (r.Ok? <==> forall i: nat :: i < k ==> !Clashes(tokens, i))
      && (r.Ok? ==> InStep(tokens, k, r.value))
  {
    hide Clashes, InStep, Step;
    if k == 0 {
      NothingDone(tokens);
    } else {
      FeedRaises(tokens, k - 1);
      assert tokens[..k] == tokens[..k - 1] + [tokens[k - 1]];
      var before := Feed(START, tokens[..k - 1]);
      if before.Ok? {
        FeedConcat(START, tokens[..k - 1], [tokens[k - 1]]);
        FeedOne(before.value, tokens[k - 1]);
        StepRaises(tokens, k - 1, before.value);
        if Step(before.value, tokens[k - 1]).Ok? {
          StepInStep(tokens, k - 1, before.value);
        }
      } else {
        FeedFails(START, tokens[..k - 1], [tokens[k - 1]]);
      }
    }
  }

  lemma NothingDone(tokens: seq<string>)
    ensures InStep(tokens, 0, START)
  {
  }

  lemma {:induction false} FeedFails(p: Parser, a: seq<string>, b: seq<string>)
    requires Fits(p) && Feed(p, a).Err?
    ensures Feed(p, a + b).Err?
    decreases |a|
  {
    hide Step, Fits;
    if a != [] && Step(p, a[0]).Ok? {
      assert (a + b)[1..] == a[1..] + b;
      FeedFails(Step(p, a[0]).value, a[1..], b);
    }
  }

  /** The parser raises if and only if some token clashes with an earlier one of its operand, or the tokens end
      where a command would have to begin. */
  lemma RaisesIff(tokens: seq<string>)
    ensures ParseTokens(tokens).Err? <==>
      ModeAt(tokens, |tokens|) == Begin || exists k: nat :: k < |tokens| && Clashes(tokens, k)
  {
    hide Clashes;
    FeedRaises(tokens, |tokens|);
    assert tokens[..|tokens|] == tokens;
  }
}
