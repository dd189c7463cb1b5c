// Which processes a run starts, and when.
module ShellOrder {
  import opened Wrappers
  import opened Sequences
  import opened ShellParser
  import opened ShellChains
  import opened ShellRunner

  // ----- which commands are started

  /** Behind the command at i, the run goes on: into the pipe, after && if it returns 0, after || if it does not. */
  predicate GoesOnBehind(nodes: seq<Node>, i: nat, code: nat -> int)
    requires i + 1 < |nodes|
  {
    nodes[i + 1].PipeOp? || (nodes[i + 1].AndOp? && code(i) == 0) || (nodes[i + 1].OrOp? && code(i) != 0)
  }

  /** The commands started from position i on. */
  function StartedFrom(nodes: seq<Node>, i: nat, code: nat -> int): seq<nat>
    decreases |nodes| - i
  {
    if i >= |nodes| || Unperformable(nodes, i) then []
    else if nodes[i].Chdir? then StartedFrom(nodes, i + 2, code)
    else [i] + if i + 1 < |nodes| && GoesOnBehind(nodes, i, code) then StartedFrom(nodes, i + 2, code) else []
  }

  lemma LaunchIds(g: Group, next: nat)
    requires AllCommands(g)
    ensures Ids(Launch(g, next).events, Start) == Positions(g) && Ids(Launch(g, next).events, Wait) == []
  {
    LaunchTracks(g, next);
  }

  lemma PositionsMore(g: Group, stage: Stage)
    ensures Positions(g + [stage]) == Positions(g) + [stage.pos]
  {
  }

  lemma EventsIds(c: Chain, code: nat -> int, next: nat)
    requires Sound(c)
    ensures c.Broken? ==> Ids(Events(c, code, next), Start) == Positions(c.partial)
    ensures !c.Broken? ==>
              Ids(Events(c, code, next), Start) ==
              Positions(c.group) + if c.Final? || ((GroupStatus(c.group, code) == 0) != c.AndThen?) then []
                                   else Ids(Events(c.rest, code, Launch(c.group, next).next), Start)
  {
    if c.Broken? {
      LaunchIds(c.partial, next);
    } else {
      GroupBalanced(c.group, next);
      var mine := GroupEvents(c.group, next);
      if !c.Final? {
        ConcatId(mine, if (GroupStatus(c.group, code) == 0) != c.AndThen? then [] else Events(c.rest, code, Launch(c.group, next).next), Start);
      }
    }
  }

  /** These are the processes that the run of c starts. */
  ghost predicate Starts(c: Chain, code: nat -> int, next: nat, ids: seq<nat>) {
    Sound(c) && Ids(Events(c, code, next), Start) == ids
  }

  lemma StartsLast(c: Chain, code: nat -> int, next: nat, more: Group)
    requires AllCommands(more) && ((c == Final(more) && more != []) || c == Broken(more))
    ensures Starts(c, code, next, Positions(more))
  {
    EventsIds(c, code, next);
  }

  lemma StartsOn(c: Chain, code: nat -> int, next: nat, more: Group, rest: Chain, ids: seq<nat>)
    requires AllCommands(more) && more != [] && (c == AndThen(more, rest) || c == OrElse(more, rest))
    requires Starts(rest, code, Launch(more, next).next, ids)
    ensures Starts(c, code, next, Positions(more) + if (GroupStatus(more, code) == 0) == c.AndThen? then ids else [])
  {
    EventsIds(c, code, next);
  }

  /** Exactly these are started, in this order, those of the group being read before them. */
  lemma {:induction false} StartsAre(nodes: seq<Node>, i: nat, cwd: string, group: Group, code: nat -> int, next: nat)
    requires Alternates(nodes) && i < |nodes| && i % 2 == 0 && AllCommands(group)
    ensures Starts(ReadChain(nodes, i, cwd, group), code, next, Positions(group) + StartedFrom(nodes, i, code))
    decreases |nodes| - i
  {
    var n, c := nodes[i], ReadChain(nodes, i, cwd, group);
    OperandAt(nodes, i);
    if Unperformable(nodes, i) {
      StartsLast(c, code, next, group);
      assert Positions(group) + [] == Positions(group);
    } else if n.Chdir? {
      StartsAre(nodes, i + 2, JoinPath(cwd, n.dir.value), group, code, next);
      assert c == ReadChain(nodes, i + 2, JoinPath(cwd, n.dir.value), group);
    } else {
      CommandStarts(nodes, i, cwd, group, code, next);
    }
  }

  /** What a command makes of the chain, and of the starts. */
  lemma CommandReads(nodes: seq<Node>, i: nat, cwd: string, group: Group, code: nat -> int)
    requires Alternates(nodes) && i % 2 == 0 && i + 2 < |nodes| && nodes[i].Command?
    ensures var c, more := ReadChain(nodes, i, cwd, group), group + [Stage(i, nodes[i], cwd)];
            && (nodes[i + 1].PipeOp? ==> c == ReadChain(nodes, i + 2, cwd, more))
            && (nodes[i + 1].AndOp? ==> c == AndThen(more, ReadChain(nodes, i + 2, cwd, [])))
            && (nodes[i + 1].OrOp? ==> c == OrElse(more, ReadChain(nodes, i + 2, cwd, [])))
    ensures StartedFrom(nodes, i, code) == [i] + if GoesOnBehind(nodes, i, code) then StartedFrom(nodes, i + 2, code) else []
    ensures nodes[i + 1].PipeOp? || nodes[i + 1].AndOp? || nodes[i + 1].OrOp?
  {
    OperandAt(nodes, i);
  }

  /** The starts of a group that && or || follows, and of what comes behind it. */
  lemma JoinedStarts(c: Chain, code: nat -> int, next: nat, group: Group, stage: Stage, rest: Chain, on: seq<nat>)
    requires AllCommands(group) && stage.cmd.Command?
    requires var more := group + [stage]; (c == AndThen(more, rest) || c == OrElse(more, rest)) && Starts(rest, code, Launch(more, next).next, on)
    ensures Starts(c, code, next, Positions(group) + ([stage.pos] + if (code(stage.pos) == 0) == c.AndThen? then on else []))
  {
    var more := group + [stage];
    PositionsMore(group, stage);
    StartsOn(c, code, next, more, rest, on);
    var tail := if (code(stage.pos) == 0) == c.AndThen? then on else [];
    assert Last(more) == stage;
    assert Positions(group) + [stage.pos] + tail == Positions(group) + ([stage.pos] + tail);
  }

  lemma JoinedCommandStarts(nodes: seq<Node>, i: nat, cwd: string, group: Group, code: nat -> int, next: nat)
    requires Alternates(nodes) && i % 2 == 0 && i + 2 < |nodes| && AllCommands(group) && nodes[i].Command? && !nodes[i + 1].PipeOp?
    requires var more := group + [Stage(i, nodes[i], cwd)];
             Starts(ReadChain(nodes, i + 2, cwd, []), code, Launch(more, next).next, Positions([]) + StartedFrom(nodes, i + 2, code))
    ensures Starts(ReadChain(nodes, i, cwd, group), code, next, Positions(group) + StartedFrom(nodes, i, code))
  {
    var c, rest, on := ReadChain(nodes, i, cwd, group), ReadChain(nodes, i + 2, cwd, []), StartedFrom(nodes, i + 2, code);
    CommandReads(nodes, i, cwd, group, code);
    assert Positions([]) + on == on;
    JoinedStarts(c, code, next, group, Stage(i, nodes[i], cwd), rest, on);
  }

  lemma PipedCommandStarts(nodes: seq<Node>, i: nat, cwd: string, group: Group, code: nat -> int, next: nat)
    requires Alternates(nodes) && i % 2 == 0 && i + 2 < |nodes| && AllCommands(group) && nodes[i].Command? && nodes[i + 1].PipeOp?
    requires var more := group + [Stage(i, nodes[i], cwd)];
             Starts(ReadChain(nodes, i + 2, cwd, more), code, next, Positions(more) + StartedFrom(nodes, i + 2, code))
    ensures Starts(ReadChain(nodes, i, cwd, group), code, next, Positions(group) + StartedFrom(nodes, i, code))
  {
    var on := StartedFrom(nodes, i + 2, code);
    CommandReads(nodes, i, cwd, group, code);
    PositionsMore(group, Stage(i, nodes[i], cwd));
    assert Positions(group) + [i] + on == Positions(group) + ([i] + on);
  }

  lemma {:induction false} CommandStarts(nodes: seq<Node>, i: nat, cwd: string, group: Group, code: nat -> int, next: nat)
    requires Alternates(nodes) && i < |nodes| && i % 2 == 0 && AllCommands(group) && nodes[i].Command?
    ensures Starts(ReadChain(nodes, i, cwd, group), code, next, Positions(group) + StartedFrom(nodes, i, code))
    decreases |nodes| - i, 0
  {
    var more := group + [Stage(i, nodes[i], cwd)];
    OperandAt(nodes, i);
    if i + 1 == |nodes| {
      PositionsMore(group, Stage(i, nodes[i], cwd));
      StartsLast(ReadChain(nodes, i, cwd, group), code, next, more);
      assert StartedFrom(nodes, i, code) == [i];
    } else if nodes[i + 1].PipeOp? {
      StartsAre(nodes, i + 2, cwd, more, code, next);
      PipedCommandStarts(nodes, i, cwd, group, code, next);
    } else {
      StartsAre(nodes, i + 2, cwd, [], code, Launch(more, next).next);
      JoinedCommandStarts(nodes, i, cwd, group, code, next);
    }
  }

  // ----- in what order

  /**
   * A file is closed, and a process that does not read from another one is started, only when all processes started before
   * have been waited for; a process that reads from another one is started before that one is waited for.
   */
  ghost predicate InTurn(before: seq<Event>, e: Event) {
    match e
    case Closed(_) => AllWaited(before)
    case Started(_, _, stdin, _, _, _, _) => if stdin.Upstream? then stdin.pos !in Ids(before, Wait) else AllWaited(before)
    case _ => true
  }

  ghost predicate Sequential(t: seq<Event>) {
    forall i :: 0 <= i < |t| ==> InTurn(t[..i], t[i])
  }

  /** Processes that read from others read from positions from lo on. */
  predicate ReadsAbove(t: seq<Event>, lo: nat) {
    forall i :: 0 <= i < |t| && t[i].Started? && t[i].stdin.Upstream? ==> lo <= t[i].stdin.pos
  }

  lemma InTurnLater(a: seq<Event>, before: seq<Event>, e: Event)
    requires AllWaited(a) && InTurn(before, e)
    requires e.Started? && e.stdin.Upstream? ==> e.stdin.pos !in Ids(a, Wait)
    ensures InTurn(a + before, e)
  {
    ConcatIds(a, before);
  }

  lemma SequentialConcat(a: seq<Event>, b: seq<Event>, lo: nat)
    requires Sequential(a) && Sequential(b) && AllWaited(a)
    requires ReadsAbove(b, lo) && forall pos :: pos in Ids(a, Wait) ==> pos < lo
    ensures Sequential(a + b)
  {
    var t := a + b;
    forall i | 0 <= i < |t| ensures InTurn(t[..i], t[i]) {
      if i < |a| {
        assert t[..i] == a[..i] && t[i] == a[i];
      } else {
        var k := i - |a|;
        assert t[..i] == a + b[..k] && t[i] == b[k];
        InTurnLater(a, b[..k], b[k]);
      }
    }
  }

  lemma {:induction false} NoStartIds(t: seq<Event>, n: nat)
    requires n <= |t| && forall i :: 0 <= i < n ==> !t[i].Started? && !t[i].Waited?
    ensures IdsUpTo(t, Start, n) == [] && IdsUpTo(t, Wait, n) == []
  {
    if n > 0 {
      NoStartIds(t, n - 1);
    }
  }

  lemma {:induction false} NoWaitIds(t: seq<Event>, n: nat)
    requires n <= |t| && forall i :: 0 <= i < n ==> !t[i].Waited?
    ensures IdsUpTo(t, Wait, n) == []
  {
    if n > 0 {
      NoWaitIds(t, n - 1);
    }
  }

  /** While a group is started, nothing is waited for, and only its first process does not read from another one. */
  ghost predicate Launching(t: seq<Event>) {
    && (forall i :: 0 <= i < |t| ==> t[i].Opened? || t[i].Started?)
    && forall i, j :: 0 <= i < j < |t| && t[i].Started? && t[j].Started? ==> t[j].stdin.Upstream?
  }

  lemma LaunchingSequential(t: seq<Event>)
    requires Launching(t)
    ensures Sequential(t)
  {
    forall i | 0 <= i < |t| ensures InTurn(t[..i], t[i]) {
      if t[i].Started? {
        NoWaitIds(t[..i], i);
        if !t[i].stdin.Upstream? {
          NoStartIds(t[..i], i);
        }
      }
    }
  }

  lemma {:induction false} LaunchLaunching(g: Group, n: nat, next: nat)
    requires n <= |g| && AllCommands(g)
    ensures Launching(LaunchFirst(g, n, next).events)
    ensures n == 0 ==> LaunchFirst(g, n, next).events == []
  {
    if n > 0 {
      LaunchLaunching(g, n - 1, next);
      var l, t := LaunchFirst(g, n - 1, next), LaunchFirst(g, n, next).events;
      StageStartsOne(g[n - 1], Before(g, n - 1), l);
      StageReads(g[n - 1], Before(g, n - 1), l);
      assert forall i :: 0 <= i < |l.events| ==> t[i] == l.events[i];
    }
  }

  /** A stage with a process before it reads from that one. */
  lemma StageReads(stage: Stage, upstream: Option<nat>, l: Launched)
    requires stage.cmd.Command?
    ensures var t := LaunchStage(stage, upstream, l).events;
            t[|t| - 1].Started? && (upstream.Some? ==> t[|t| - 1].stdin == Upstream(upstream.value))
  {
  }

  /** The part behind the launch: every process is waited for, then the files are closed. */
  lemma SequentialMore(a: seq<Event>, b: seq<Event>)
    requires Sequential(a) && forall k :: 0 <= k < |b| ==> InTurn(a + b[..k], b[k])
    ensures Sequential(a + b)
  {
    var t := a + b;
    forall i | 0 <= i < |t| ensures InTurn(t[..i], t[i]) {
      if i < |a| {
        assert t[..i] == a[..i] && t[i] == a[i];
      } else {
        assert t[..i] == a + b[..i - |a|] && t[i] == b[i - |a|];
      }
    }
  }

  lemma FinishSequential(l: Launched, g: Group)
    requires Launching(l.events) && Ids(l.events, Start) == Positions(g) && Ids(l.events, Wait) == []
    ensures Sequential(l.events + (Waits(g) + Closes(l.files)))
  {
    var waits, closes := Waits(g), Closes(l.files);
    var b := waits + closes;
    LaunchingSequential(l.events);
    ClosesOnly(l.files);
    forall k | 0 <= k < |b| ensures InTurn(l.events + b[..k], b[k]) {
      if k >= |waits| {
        CloseInTurn(l, g, closes, k - |waits|);
        assert b[..k] == waits + closes[..k - |waits|] && b[k] == closes[k - |waits|];
      }
    }
    SequentialMore(l.events, b);
  }

  lemma CloseInTurn(l: Launched, g: Group, closes: seq<Event>, k: nat)
    requires Ids(l.events, Start) == Positions(g) && Ids(l.events, Wait) == []
    requires k < |closes| && forall i :: 0 <= i < |closes| ==> closes[i].Closed?
    ensures InTurn(l.events + (Waits(g) + closes[..k]), closes[k])
  {
    WaitedThen(l, g, closes[..k]);
  }

  lemma WaitedThen(l: Launched, g: Group, part: seq<Event>)
    requires Ids(l.events, Start) == Positions(g) && Ids(l.events, Wait) == []
    requires forall i :: 0 <= i < |part| ==> part[i].Closed?
    ensures AllWaited(l.events + (Waits(g) + part))
  {
    WaitIds(g, Start);
    WaitIds(g, Wait);
    NoStartIds(part, |part|);
    ConcatIds(Waits(g), part);
    ConcatIds(l.events, Waits(g) + part);
  }

  lemma GroupSequential(g: Group, next: nat)
    requires AllCommands(g)
    ensures Sequential(GroupEvents(g, next))
  {
    LaunchLaunching(g, |g|, next);
    LaunchIds(g, next);
    FinishSequential(Launch(g, next), g);
  }

  lemma StageReadsAbove(stage: Stage, upstream: Option<nat>, l: Launched, lo: nat)
    requires stage.cmd.Command? && ReadsAbove(l.events, lo) && (upstream.Some? ==> lo <= upstream.value)
    ensures ReadsAbove(LaunchStage(stage, upstream, l).events, lo)
  {
    var t := LaunchStage(stage, upstream, l).events;
    StageStartsOne(stage, upstream, l);
    assert forall i :: 0 <= i < |l.events| ==> t[i] == l.events[i];
  }

  lemma {:induction false} LaunchReads(g: Group, n: nat, next: nat, lo: nat)
    requires n <= |g| && AllCommands(g) && InOrder(g, lo)
    ensures ReadsAbove(LaunchFirst(g, n, next).events, lo)
  {
    if n > 0 {
      LaunchReads(g, n - 1, next, lo);
      StageReadsAbove(g[n - 1], Before(g, n - 1), LaunchFirst(g, n - 1, next), lo);
    }
  }

  lemma GroupReads(g: Group, next: nat, lo: nat)
    requires AllCommands(g) && InOrder(g, lo)
    ensures ReadsAbove(GroupEvents(g, next), lo)
  {
    LaunchReads(g, |g|, next, lo);
    ClosesOnly(Launch(g, next).files);
  }

  lemma ReadsConcat(a: seq<Event>, b: seq<Event>, lo: nat, mid: nat)
    requires ReadsAbove(a, lo) && ReadsAbove(b, mid) && lo <= mid
    ensures ReadsAbove(a + b, lo)
  {
  }

  /** So it is in every run. */
  lemma {:induction false} RunSequential(c: Chain, code: nat -> int, lo: nat, next: nat)
    requires Proper(c, lo) && Sound(c)
    ensures Sequential(Events(c, code, next)) && ReadsAbove(Events(c, code, next), lo)
  {
    if c.Broken? {
      LaunchLaunching(c.partial, |c.partial|, next);
      LaunchingSequential(Events(c, code, next));
      LaunchReads(c.partial, |c.partial|, next, lo);
    } else {
      var g, mine := c.group, GroupEvents(c.group, next);
      GroupSequential(g, next);
      GroupReads(g, next, lo);
      if !c.Final? {
        var lo', others := Last(g).pos + 1, Events(c.rest, code, Launch(g, next).next);
        RunSequential(c.rest, code, lo', Launch(g, next).next);
        GroupBalanced(g, next);
        PositionsIncrease(g, lo);
        assert Positions(g)[0] in Positions(g);
        SequentialConcat(mine, others, lo');
        ReadsConcat(mine, others, lo, lo');
        assert mine + [] == mine;
      }
    }
  }
}
