// What a parsed pipeline means: groups of piped commands, linked by && and ||.
module ShellChains {
  import opened Wrappers
  import opened Sequences
  import opened ShellParser

  /** A command of the pipeline, with its position there and the directory it is to run in. */
  datatype Stage = Stage(pos: nat, cmd: Node, cwd: string)

  type Group = seq<Stage>

  /** Broken stands for a change of directory that the runner cannot perform, with the commands already started before it in the same group. */
  datatype Chain =
    | Final(group: Group)
    | AndThen(group: Group, rest: Chain)
    | OrElse(group: Group, rest: Chain)
    | Broken(partial: Group)

  datatype Outcome = Status(code: int) | Raised | NoStatus

  function JoinPath(a: string, b: string): string {
    if b != "" && b[0] == '/' then b
    else if a == "" || Last(a) == '/' then a + b
    else a + "/" + b
  }

  /** Reads nodes from position i on, cwd being the directory reached and group the stages read since the last && or ||. */
  function ReadChain(nodes: seq<Node>, i: nat, cwd: string, group: Group): Chain
    requires Alternates(nodes) && i < |nodes| && i % 2 == 0
    decreases |nodes| - i
  {
    var n := nodes[i];
    if n.Chdir? then
      if i + 1 == |nodes| || n.dir.None? then Broken(group)
      else ReadChain(nodes, i + 2, JoinPath(cwd, n.dir.value), group)
    else
      var group' := group + [Stage(i, n, cwd)];
      if i + 1 == |nodes| then Final(group')
      else
        assert Links(nodes[i], nodes[i + 1]);
        match nodes[i + 1]
        case PipeOp => ReadChain(nodes, i + 2, cwd, group')
        case AndOp => AndThen(group', ReadChain(nodes, i + 2, cwd, []))
        case OrOp => OrElse(group', ReadChain(nodes, i + 2, cwd, []))
  }

  /** The exit code of a group is its last command's. */
  function GroupStatus(g: Group, code: nat -> int): int
    requires g != []
  {
    code(Last(g).pos)
  }

  predicate AllCommands(g: Group) {
    forall k :: 0 <= k < |g| ==> g[k].cmd.Command?
  }

  predicate Sound(c: Chain) {
    match c
    case Final(g) => g != [] && AllCommands(g)
    case AndThen(g, rest) => g != [] && AllCommands(g) && Sound(rest)
    case OrElse(g, rest) => g != [] && AllCommands(g) && Sound(rest)
    case Broken(g) => AllCommands(g)
  }

  /** && and || associate to the right: a group that decides ends everything. */
  function Eval(c: Chain, code: nat -> int): Outcome
    requires Sound(c)
  {
    match c
    case Final(g) => Status(GroupStatus(g, code))
    case AndThen(g, rest) => if GroupStatus(g, code) == 0 then Eval(rest, code) else Status(GroupStatus(g, code))
    case OrElse(g, rest) => if GroupStatus(g, code) == 0 then Status(0) else Eval(rest, code)
    case Broken(_) => Raised
  }

  // ----- the shape of the chain read from a well-formed pipeline

  /** Every stage but the last writes into a pipe, and the last one does not. */
  predicate Piped(g: Group) {
    g != [] && (forall k :: 0 <= k < |g| ==> g[k].cmd.Command? && (g[k].cmd.stdout == PipeEnd <==> k < |g| - 1))
  }

  /** A group cut before its last stage. */
  predicate HalfPiped(g: Group) {
    forall k :: 0 <= k < |g| ==> g[k].cmd.Command? && g[k].cmd.stdout == PipeEnd
  }

  /** Positions increase along the chain, starting from at least lo. */
  predicate InOrder(g: Group, lo: nat) {
    && (forall k :: 0 <= k < |g| ==> lo <= g[k].pos)
    && forall j, k :: 0 <= j < k < |g| ==> g[j].pos < g[k].pos
  }

  predicate Proper(c: Chain, lo: nat) {
    match c
    case Final(g) => Piped(g) && InOrder(g, lo)
    case AndThen(g, rest) => Piped(g) && InOrder(g, lo) && Proper(rest, Last(g).pos + 1)
    case OrElse(g, rest) => Piped(g) && InOrder(g, lo) && Proper(rest, Last(g).pos + 1)
    case Broken(g) => HalfPiped(g) && InOrder(g, lo)
  }

  lemma {:induction false} ProperSound(c: Chain, lo: nat)
    requires Proper(c, lo)
    ensures Sound(c)
  {
    match c
    case AndThen(g, rest) => ProperSound(rest, Last(g).pos + 1);
    case OrElse(g, rest) => ProperSound(rest, Last(g).pos + 1);
    case _ =>
  }

  /** After an operand comes either the end, or an operator that suits it and another operand. */
  lemma OperandAt(nodes: seq<Node>, i: nat)
    requires Alternates(nodes) && i < |nodes| && i % 2 == 0
    ensures nodes[i].Command? || nodes[i].Chdir?
    ensures i + 1 == |nodes| || (i + 2 < |nodes| && (i + 2) % 2 == 0 && Links(nodes[i], nodes[i + 1]))
  {
    if i + 1 < |nodes| {
      assert Links(nodes[i], nodes[i + 1]);
    }
  }

  /** What Run needs to know of the chain it walks along. */
  lemma {:induction false} ReadChainSound(nodes: seq<Node>, i: nat, cwd: string, group: Group)
    requires Alternates(nodes) && i < |nodes| && i % 2 == 0
    requires AllCommands(group)
    ensures Sound(ReadChain(nodes, i, cwd, group))
    decreases |nodes| - i
  {
    var n := nodes[i];
    if i + 1 < |nodes| {
      assert Links(nodes[i], nodes[i + 1]);
      ReadChainSound(nodes, i + 2, if n.Chdir? && n.dir.Some? then JoinPath(cwd, n.dir.value) else cwd,
                     if n.Chdir? then group else if nodes[i + 1] == PipeOp then group + [Stage(i, n, cwd)] else []);
    }
  }

  lemma GroupGrows(group: Group, stage: Stage, lo: nat)
    requires HalfPiped(group) && InOrder(group, lo) && stage.cmd.Command?
    requires lo <= stage.pos && forall k :: 0 <= k < |group| ==> group[k].pos < stage.pos
    ensures InOrder(group + [stage], lo) && forall k :: 0 <= k <= |group| ==> (group + [stage])[k].pos <= stage.pos
    ensures if stage.cmd.stdout == PipeEnd then HalfPiped(group + [stage]) else Piped(group + [stage])
  {
  }

  lemma {:induction false} ReadChainProper(nodes: seq<Node>, i: nat, cwd: string, group: Group, lo: nat)
    requires Alternates(nodes) && i < |nodes| && i % 2 == 0
    requires HalfPiped(group) && InOrder(group, lo)
    requires lo <= i && forall k :: 0 <= k < |group| ==> group[k].pos < i
    ensures Proper(ReadChain(nodes, i, cwd, group), lo)
    decreases |nodes| - i
  {
    var n := nodes[i];
    OperandAt(nodes, i);
    if n.Chdir? {
      if i + 1 < |nodes| && n.dir.Some? {
        ReadChainProper(nodes, i + 2, JoinPath(cwd, n.dir.value), group, lo);
      }
    } else {
      var group' := group + [Stage(i, n, cwd)];
      GroupGrows(group, Stage(i, n, cwd), lo);
      if i + 1 < |nodes| {
        if nodes[i + 1].PipeOp? {
          ReadChainProper(nodes, i + 2, cwd, group', lo);
        } else {
          ReadChainProper(nodes, i + 2, cwd, [], i + 1);
        }
      }
    }
  }

  /** A pipeline is runnable to the end if no change of directory comes last or names no directory. */
  predicate Runnable(nodes: seq<Node>) {
    forall k :: 0 <= k < |nodes| && nodes[k].Chdir? ==> nodes[k].dir.Some? && k < |nodes| - 1
  }

  predicate Intact(c: Chain) {
    match c
    case Final(_) => true
    case AndThen(_, rest) => Intact(rest)
    case OrElse(_, rest) => Intact(rest)
    case Broken(_) => false
  }

  lemma {:induction false} RunnableIntact(nodes: seq<Node>, i: nat, cwd: string, group: Group)
    requires Alternates(nodes) && i < |nodes| && i % 2 == 0
    ensures (forall k :: i <= k < |nodes| && nodes[k].Chdir? ==> nodes[k].dir.Some? && k < |nodes| - 1)
            <==> Intact(ReadChain(nodes, i, cwd, group))
    decreases |nodes| - i
  {
    var n := nodes[i];
    if i + 1 < |nodes| {
      assert Links(nodes[i], nodes[i + 1]);
      RunnableIntact(nodes, i + 2, if n.Chdir? && n.dir.Some? then JoinPath(cwd, n.dir.value) else cwd,
                     if n.Chdir? then group else if nodes[i + 1] == PipeOp then group + [Stage(i, n, cwd)] else []);
    }
  }

  lemma {:induction false} IntactStatus(c: Chain, code: nat -> int)
    requires Sound(c) && Intact(c)
    ensures Eval(c, code).Status?
  {
    if !c.Final? {
      IntactStatus(c.rest, code);
    }
  }

  // ----- commands that a raising run leaves behind

  /** The commands started before a change of directory that cannot be performed, in the same group. */
  function Stranded(c: Chain): Group {
    match c
    case Final(_) => []
    case AndThen(_, rest) => Stranded(rest)
    case OrElse(_, rest) => Stranded(rest)
    case Broken(g) => g
  }

  predicate Unperformable(nodes: seq<Node>, k: nat)
    requires k < |nodes|
  {
    nodes[k].Chdir? && (nodes[k].dir.None? || k == |nodes| - 1)
  }

  /** k is the first unperformable change of directory from position i on. */
  predicate FirstUnperformable(nodes: seq<Node>, i: nat, k: nat) {
    i <= k < |nodes| && Unperformable(nodes, k) && forall m :: i <= m < k ==> !Unperformable(nodes, m)
  }

  predicate OnlyChdirs(nodes: seq<Node>, i: nat, k: nat)
    requires k <= |nodes|
  {
    forall m :: i <= m < k && m % 2 == 0 ==> nodes[m].Chdir?
  }

  /** A command at j writes into a pipe, and only changes of directory come between it and k. */
  predicate Pipes(nodes: seq<Node>, j: nat, k: nat)
    requires k <= |nodes|
  {
    j % 2 == 0 && j + 1 < k && nodes[j].Command? && nodes[j + 1].PipeOp? && OnlyChdirs(nodes, j + 2, k)
  }

  predicate BehindPipe(nodes: seq<Node>, i: nat, k: nat)
    requires k <= |nodes|
  {
    exists j :: i <= j < k && Pipes(nodes, j, k)
  }

  /** Behind a pipe, changes of directory between them aside, comes the first one that cannot be performed. */
  ghost predicate PipedAway(nodes: seq<Node>) {
    exists k :: 0 <= k < |nodes| && FirstUnperformable(nodes, 0, k) && BehindPipe(nodes, 0, k)
  }

  lemma BehindPipeFurther(nodes: seq<Node>, i: nat, k: nat)
    requires Alternates(nodes) && i % 2 == 0 && i + 2 <= k < |nodes|
    ensures OnlyChdirs(nodes, i, k) <==> nodes[i].Chdir? && OnlyChdirs(nodes, i + 2, k)
    ensures BehindPipe(nodes, i, k) <==> BehindPipe(nodes, i + 2, k) || Pipes(nodes, i, k)
  {
    forall j | i <= j < k && Pipes(nodes, j, k) ensures j == i || j >= i + 2 {
    }
  }

  /** Read from position i on, with commands of the same group before it if open, the chain breaks at k and leaves commands behind. */
  predicate StrandsAt(nodes: seq<Node>, i: nat, open: bool, k: nat) {
    FirstUnperformable(nodes, i, k) && (BehindPipe(nodes, i, k) || (open && OnlyChdirs(nodes, i, k)))
  }

  ghost predicate Strands(nodes: seq<Node>, i: nat, open: bool) {
    exists k :: StrandsAt(nodes, i, open, k)
  }

  lemma StrandsFurther(nodes: seq<Node>, i: nat, open: bool, open': bool, k: nat)
    requires Alternates(nodes) && i % 2 == 0 && i + 2 < |nodes| && !Unperformable(nodes, i)
    requires open' == if nodes[i].Chdir? then open else nodes[i + 1].PipeOp?
    ensures StrandsAt(nodes, i, open, k) <==> StrandsAt(nodes, i + 2, open', k)
  {
    assert Links(nodes[i], nodes[i + 1]);
    if i + 2 <= k < |nodes| {
      BehindPipeFurther(nodes, i, k);
    }
  }

  lemma {:induction false} StrandedFrom(nodes: seq<Node>, i: nat, cwd: string, group: Group, k: nat)
    requires Alternates(nodes) && i < |nodes| && i % 2 == 0
    ensures StrandsAt(nodes, i, group != [], k) ==> Stranded(ReadChain(nodes, i, cwd, group)) != []
    ensures Stranded(ReadChain(nodes, i, cwd, group)) != [] ==> Strands(nodes, i, group != [])
    decreases |nodes| - i
  {
    var n := nodes[i];
    OperandAt(nodes, i);
    if Unperformable(nodes, i) {
      assert group != [] ==> StrandsAt(nodes, i, true, i);
    } else if i + 2 < |nodes| {
      var cwd' := if n.Chdir? then JoinPath(cwd, n.dir.value) else cwd;
      var group' := if n.Chdir? then group else if nodes[i + 1].PipeOp? then group + [Stage(i, n, cwd)] else [];
      StrandedFrom(nodes, i + 2, cwd', group', k);
      assert Stranded(ReadChain(nodes, i, cwd, group)) == Stranded(ReadChain(nodes, i + 2, cwd', group'));
      StrandsFurther(nodes, i, group != [], group' != [], k);
      var open' := group' != [];
      if Strands(nodes, i + 2, open') {
        var k' :| StrandsAt(nodes, i + 2, open', k');
        StrandsFurther(nodes, i, group != [], open', k');
      }
    }
  }

  lemma StrandedIffPipedAway(nodes: seq<Node>)
    requires Alternates(nodes)
    ensures Stranded(ReadChain(nodes, 0, ".", [])) != [] <==> PipedAway(nodes)
  {
    StrandedFrom(nodes, 0, ".", [], 0);
    if PipedAway(nodes) {
      var k :| 0 <= k < |nodes| && FirstUnperformable(nodes, 0, k) && BehindPipe(nodes, 0, k);
      assert StrandsAt(nodes, 0, false, k);
      StrandedFrom(nodes, 0, ".", [], k);
    }
    if Stranded(ReadChain(nodes, 0, ".", [])) != [] {
      var k :| StrandsAt(nodes, 0, false, k);
      assert FirstUnperformable(nodes, 0, k) && BehindPipe(nodes, 0, k);
    }
  }
}
