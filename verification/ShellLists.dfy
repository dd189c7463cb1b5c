// The runner's rule for && and || against the shell's, on the nodes of a pipeline.
module ShellLists {
  import opened Wrappers
  import opened ShellParser
  import opened ShellChains

  datatype Link = First | And | Or

  /** Whether what stands behind an operator runs, given the status so far. */
  predicate Runs(link: Link, status: int) {
    match link
    case First => true
    case And => status == 0
    case Or => status != 0
  }

  function LinkOf(op: Node): Link {
    if op.AndOp? then And else Or
  }

  predicate PipesOn(nodes: seq<Node>, i: nat) {
    i + 1 < |nodes| && nodes[i + 1].PipeOp?
  }

  /** A change of directory succeeds. */
  function OperandStatus(nodes: seq<Node>, i: nat, code: nat -> int): int
    requires i < |nodes|
  {
    if nodes[i].Chdir? then 0 else code(i)
  }

  /**
   * The status that an and-or list has in the shell, from position i on: link stands before the operand at i, and status
   * is that of the list so far. A pipe group has its last operand's status, and && and || associate to the left.
   */
  function ShellFrom(nodes: seq<Node>, i: nat, code: nat -> int, link: Link, status: int): int
    requires i < |nodes| && |nodes| % 2 == 1 && i % 2 == 0
    decreases |nodes| - i
  {
    if PipesOn(nodes, i) then ShellFrom(nodes, i + 2, code, link, status)
    else
      var status' := if Runs(link, status) then OperandStatus(nodes, i, code) else status;
      if i + 1 == |nodes| then status' else ShellFrom(nodes, i + 2, code, LinkOf(nodes[i + 1]), status')
  }

  function ShellStatus(nodes: seq<Node>, code: nat -> int): int
    requires |nodes| % 2 == 1
  {
    ShellFrom(nodes, 0, code, First, 0)
  }

  /** The runner's status from position i on: a command that decides ends everything, and a change of directory is passed. */
  function RunnerFrom(nodes: seq<Node>, i: nat, code: nat -> int): int
    requires i < |nodes| && |nodes| % 2 == 1 && i % 2 == 0
    decreases |nodes| - i
  {
    if i + 1 == |nodes| then code(i)
    else if nodes[i].Chdir? || PipesOn(nodes, i) || Runs(LinkOf(nodes[i + 1]), code(i)) then RunnerFrom(nodes, i + 2, code)
    else code(i)
  }

  /** That is how the chain read from the pipeline is evaluated. */
  lemma {:induction false} ChainStatus(nodes: seq<Node>, i: nat, cwd: string, group: Group, code: nat -> int)
    requires Alternates(nodes) && Runnable(nodes) && i < |nodes| && i % 2 == 0 && AllCommands(group)
    ensures Sound(ReadChain(nodes, i, cwd, group))
    ensures Eval(ReadChain(nodes, i, cwd, group), code) == Status(RunnerFrom(nodes, i, code))
    decreases |nodes| - i
  {
    var n := nodes[i];
    ReadChainSound(nodes, i, cwd, group);
    if i + 1 < |nodes| {
      assert Links(nodes[i], nodes[i + 1]);
      ChainStatus(nodes, i + 2, if n.Chdir? then JoinPath(cwd, n.dir.value) else cwd,
                  if n.Chdir? then group else if nodes[i + 1] == PipeOp then group + [Stage(i, n, cwd)] else [], code);
    }
  }

  // ----- where the two rules agree

  predicate NoOr(nodes: seq<Node>, i: nat) {
    forall k :: i <= k < |nodes| ==> !nodes[k].OrOp?
  }

  predicate NoAnd(nodes: seq<Node>, i: nat) {
    forall k :: i <= k < |nodes| ==> !nodes[k].AndOp?
  }

  /** The && at position k belongs to a change of directory, and no || stands before it, from i on. */
  predicate Leading(nodes: seq<Node>, i: nat, k: nat)
    requires k < |nodes|
  {
    k > 0 && nodes[k - 1].Chdir? && forall j :: i <= j < k ==> !nodes[j].OrOp?
  }

  predicate OnlyLeadingAnds(nodes: seq<Node>, i: nat) {
    forall k :: i <= k < |nodes| && nodes[k].AndOp? ==> Leading(nodes, i, k)
  }

  /** There is no ||, or the only && are those of changes of directory before the first ||. */
  predicate OneRule(nodes: seq<Node>) {
    NoOr(nodes, 0) || OnlyLeadingAnds(nodes, 0)
  }

  /** What is passed over is passed over to the end. */
  lemma {:induction false} PassedOver(nodes: seq<Node>, i: nat, code: nat -> int, link: Link, status: int)
    requires Alternates(nodes) && i < |nodes| && i % 2 == 0
    requires (link == And && status != 0 && NoOr(nodes, i)) || (link == Or && status == 0 && NoAnd(nodes, i))
    ensures ShellFrom(nodes, i, code, link, status) == status
    decreases |nodes| - i
  {
    if i + 1 < |nodes| {
      assert Links(nodes[i], nodes[i + 1]);
      PassedOver(nodes, i + 2, code, link, status);
    }
  }

  lemma NoAndBehind(nodes: seq<Node>, i: nat)
    requires i + 1 < |nodes| && nodes[i + 1].OrOp? && OnlyLeadingAnds(nodes, i)
    ensures NoAnd(nodes, i + 2)
  {
  }

  lemma {:induction false} AgreeFrom(nodes: seq<Node>, i: nat, code: nat -> int, link: Link, status: int)
    requires Alternates(nodes) && Runnable(nodes) && i < |nodes| && i % 2 == 0
    requires Runs(link, status) && (NoOr(nodes, i) || OnlyLeadingAnds(nodes, i))
    ensures ShellFrom(nodes, i, code, link, status) == RunnerFrom(nodes, i, code)
    decreases |nodes| - i
  {
    if i + 1 < |nodes| {
      assert Links(nodes[i], nodes[i + 1]);
      var op, s := nodes[i + 1], OperandStatus(nodes, i, code);
      if op.PipeOp? {
        AgreeFrom(nodes, i + 2, code, link, status);
      } else if Runs(LinkOf(op), s) {
        AgreeFrom(nodes, i + 2, code, LinkOf(op), s);
      } else {
        if op.OrOp? {
          NoAndBehind(nodes, i);
        }
        PassedOver(nodes, i + 2, code, LinkOf(op), s);
      }
    }
  }

  // ----- where they differ

  /** One command has a status of its own. */
  function Probe(p: nat, mine: int, others: int): nat -> int {
    k => if k == p then mine else others
  }

  /** If all commands from here on succeed, so does the list, unless what is left of it is passed over with a failure. */
  lemma {:induction false} AllSucceed(nodes: seq<Node>, i: nat, code: nat -> int, link: Link, status: int)
    requires Alternates(nodes) && i < |nodes| && i % 2 == 0
    requires forall k :: i <= k ==> code(k) == 0
    requires Runs(link, status) || status == 0
    ensures ShellFrom(nodes, i, code, link, status) == 0
    decreases |nodes| - i
  {
    if i + 1 < |nodes| {
      AllSucceed(nodes, i + 2, code, if PipesOn(nodes, i) then link else LinkOf(nodes[i + 1]), if PipesOn(nodes, i) then status else 0);
    }
  }

  /** If all commands from here on fail, so does the list, unless what is left of it is passed over with a success. */
  lemma {:induction false} AllFail(nodes: seq<Node>, i: nat, code: nat -> int, link: Link, status: int)
    requires Alternates(nodes) && Runnable(nodes) && i < |nodes| && i % 2 == 0
    requires forall k :: i <= k ==> code(k) == 1
    requires Runs(link, status) || status != 0
    ensures ShellFrom(nodes, i, code, link, status) != 0
    decreases |nodes| - i
  {
    if i + 1 < |nodes| {
      assert Links(nodes[i], nodes[i + 1]);
      var status' := if Runs(link, status) then OperandStatus(nodes, i, code) else status;
      AllFail(nodes, i + 2, code, if PipesOn(nodes, i) then link else LinkOf(nodes[i + 1]), if PipesOn(nodes, i) then status else status');
    }
  }

  /** A failure is passed on by && until an || lets the rest run. */
  lemma {:induction false} SkipToOr(nodes: seq<Node>, i: nat, code: nat -> int, status: int)
    requires Alternates(nodes) && i < |nodes| && i % 2 == 0
    requires forall k :: i <= k ==> code(k) == 0
    requires status != 0 && !NoOr(nodes, i)
    ensures ShellFrom(nodes, i, code, And, status) == 0
    decreases |nodes| - i
  {
    var k :| i <= k < |nodes| && nodes[k].OrOp?;
    OperandAt(nodes, i);
    assert k != i;
    if PipesOn(nodes, i) || nodes[i + 1].AndOp? {
      assert nodes[k].OrOp? && k >= i + 2;
      SkipToOr(nodes, i + 2, code, status);
    } else {
      AllSucceed(nodes, i + 2, code, Or, status);
    }
  }

  /** A success is passed on by || until an && lets the rest run. */
  lemma {:induction false} SkipToAnd(nodes: seq<Node>, i: nat, code: nat -> int)
    requires Alternates(nodes) && Runnable(nodes) && i < |nodes| && i % 2 == 0
    requires forall k :: i <= k ==> code(k) == 1
    requires !NoAnd(nodes, i)
    ensures ShellFrom(nodes, i, code, Or, 0) != 0
    decreases |nodes| - i
  {
    var k :| i <= k < |nodes| && nodes[k].AndOp?;
    OperandAt(nodes, i);
    assert k != i;
    if PipesOn(nodes, i) || nodes[i + 1].OrOp? {
      assert nodes[k].AndOp? && k >= i + 2;
      SkipToAnd(nodes, i + 2, code);
    } else {
      AllFail(nodes, i + 2, code, And, 0);
    }
  }

  /** A pipe, or the && of a change of directory, does not bear on whether the two rules agree. */
  lemma Further(nodes: seq<Node>, i: nat)
    requires i + 2 < |nodes| && !nodes[i].OrOp? && !nodes[i].AndOp?
    requires nodes[i + 1].PipeOp? || (nodes[i].Chdir? && nodes[i + 1].AndOp?)
    ensures NoOr(nodes, i + 2) ==> NoOr(nodes, i)
    ensures OnlyLeadingAnds(nodes, i + 2) ==> OnlyLeadingAnds(nodes, i)
  {
    if OnlyLeadingAnds(nodes, i + 2) {
      forall k | i <= k < |nodes| && nodes[k].AndOp? ensures Leading(nodes, i, k) {
        assert k >= i + 2 ==> Leading(nodes, i + 2, k);
      }
    }
  }

  lemma BehindCommand(nodes: seq<Node>, i: nat)
    requires i + 2 < |nodes| && nodes[i].Command?
    ensures nodes[i + 1].AndOp? && NoOr(nodes, i + 2) ==> NoOr(nodes, i)
    ensures nodes[i + 1].OrOp? && NoAnd(nodes, i + 2) ==> OnlyLeadingAnds(nodes, i)
  {
  }

  /** Some exit codes tell the two rules apart, if the first || or && behind a command is not the only operator. */
  lemma {:induction false} DifferFrom(nodes: seq<Node>, i: nat, link: Link, status: int) returns (code: nat -> int)
    requires Alternates(nodes) && Runnable(nodes) && i < |nodes| && i % 2 == 0
    requires link != Or && Runs(link, status)
    requires !NoOr(nodes, i) && !OnlyLeadingAnds(nodes, i)
    ensures ShellFrom(nodes, i, code, link, status) != RunnerFrom(nodes, i, code)
    decreases |nodes| - i
  {
    OperandAt(nodes, i);
    if PipesOn(nodes, i) || nodes[i].Chdir? {
      Further(nodes, i);
      code := DifferFrom(nodes, i + 2, if PipesOn(nodes, i) then link else And, if PipesOn(nodes, i) then status else 0);
    } else if nodes[i + 1].AndOp? {
      BehindCommand(nodes, i);
      code := Probe(i, 1, 0);
      SkipToOr(nodes, i + 2, code, 1);
    } else {
      BehindCommand(nodes, i);
      code := Probe(i, 0, 1);
      SkipToAnd(nodes, i + 2, code);
    }
  }

  /** Whatever the exit codes, the runner returns what the shell does. */
  ghost predicate AlwaysAgrees(nodes: seq<Node>)
    requires Alternates(nodes) && Sound(ReadChain(nodes, 0, ".", []))
  {
    forall code: nat -> int :: Eval(ReadChain(nodes, 0, ".", []), code) == Status(ShellStatus(nodes, code))
  }

  /**
   * The runner gives the shell's status whatever the exit codes exactly when the pipeline has no ||, or each && is that of a
   * change of directory before the first ||.
   */
  lemma AgreesIffOneRule(nodes: seq<Node>)
    requires Alternates(nodes) && Runnable(nodes)
    ensures Sound(ReadChain(nodes, 0, ".", []))
    ensures AlwaysAgrees(nodes) <==> OneRule(nodes)
  {
    ReadChainSound(nodes, 0, ".", []);
    if OneRule(nodes) {
      forall code: nat -> int ensures Eval(ReadChain(nodes, 0, ".", []), code) == Status(ShellStatus(nodes, code)) {
        ChainStatus(nodes, 0, ".", [], code);
        AgreeFrom(nodes, 0, code, First, 0);
      }
    } else {
      var code := DifferFrom(nodes, 0, First, 0);
      ChainStatus(nodes, 0, ".", [], code);
      assert Eval(ReadChain(nodes, 0, ".", []), code) != Status(ShellStatus(nodes, code));
    }
  }

  // ----- two lines

  function Plain(name: string): Node {
    Command(name, [name], Inherited, Inherited, Inherited, map[])
  }

  lemma PlainIsCommand(name: string)
    requires name in ["a", "b"]
    ensures IsCommand(Plain(name))
  {
    assert FirstIndex(name[1..], '=') == 0;
  }

  lemma OrThenChdirParsed(nodes: seq<Node>)
    requires nodes == [Plain("a"), OrOp, Chdir(Some("d")), AndOp, Plain("b")]
    ensures exists tokens :: Parse(tokens) == Some(nodes)
    ensures Alternates(nodes) && Runnable(nodes)
  {
    PlainIsCommand("a");
    PlainIsCommand("b");
    assert WellFormed(nodes);
    ParsePrint(nodes);
    WellFormedAlternates(nodes);
  }

  /** a || cd d && b, when a succeeds and b fails: the runner stops at a, a shell goes on to b. */
  lemma OrThenChdir(nodes: seq<Node>, code: nat -> int)
    requires nodes == [Plain("a"), OrOp, Chdir(Some("d")), AndOp, Plain("b")]
    requires code(0) == 0 && code(4) == 1
    ensures exists tokens :: Parse(tokens) == Some(nodes)
    ensures Alternates(nodes) && Runnable(nodes) && Sound(ReadChain(nodes, 0, ".", []))
    ensures Eval(ReadChain(nodes, 0, ".", []), code) == Status(0) && ShellStatus(nodes, code) == 1
  {
    OrThenChdirParsed(nodes);
    ChainStatus(nodes, 0, ".", [], code);
    assert ShellFrom(nodes, 4, code, And, 0) == 1;
    assert ShellFrom(nodes, 2, code, Or, 0) == 1;
  }

  /** cd d && a || b uses both operators, and always gets the shell's status. */
  lemma ChdirThenOr(nodes: seq<Node>)
    requires nodes == [Chdir(Some("d")), AndOp, Plain("a"), OrOp, Plain("b")]
    ensures Alternates(nodes) && Runnable(nodes) && Sound(ReadChain(nodes, 0, ".", []))
    ensures AlwaysAgrees(nodes)
  {
    assert OneRule(nodes);
    AgreesIffOneRule(nodes);
  }
}
