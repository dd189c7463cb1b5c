// What each process of a run is started with.
module ShellTrace {
  import opened Wrappers
  import opened Sequences
  import opened ShellParser
  import opened ShellChains
  import opened ShellRunner

  // ----- directories

  predicate Absolute(dir: string) {
    dir != "" && dir[0] == '/'
  }

  /** The directories that the changes of directory among the first n nodes name, in order. */
  function Directories(nodes: seq<Node>, n: nat): seq<string>
    requires n <= |nodes|
  {
    if n == 0 then []
    else Directories(nodes, n - 1) + if nodes[n - 1].Chdir? && nodes[n - 1].dir.Some? then [nodes[n - 1].dir.value] else []
  }

  /** base with each of these directories behind it, one slash between them. */
  function Below(base: string, dirs: seq<string>): (path: string)
    requires base != ""
    ensures path != ""
  {
    if dirs == [] then base
    else
      var path := Below(base, dirs[..|dirs| - 1]);
      path + (if Last(path) == '/' then "" else "/") + Last(dirs)
  }

  /** Of these directories the last absolute one, or else ".", with those after it below it. */
  ghost predicate LeadTo(dirs: seq<string>, path: string) {
    exists m: nat :: PathFrom(dirs, m, path)
  }

  predicate PathFrom(dirs: seq<string>, m: nat, path: string) {
    && m <= |dirs| && (m > 0 ==> Absolute(dirs[m - 1]))
    && (forall k :: m <= k < |dirs| ==> !Absolute(dirs[k]))
    && path == Below(if m == 0 then "." else dirs[m - 1], dirs[m..])
  }

  lemma OneMoreDirectory(dirs: seq<string>, path: string, dir: string)
    requires LeadTo(dirs, path)
    ensures LeadTo(dirs + [dir], JoinPath(path, dir))
  {
    var m: nat :| PathFrom(dirs, m, path);
    var more := dirs + [dir];
    if Absolute(dir) {
      assert more[|more|..] == [] && more[|more| - 1] == dir;
      assert PathFrom(more, |more|, dir);
    } else {
      OneMoreRelative(dirs, m, path, dir);
    }
  }

  lemma BelowMore(base: string, dirs: seq<string>, dir: string)
    requires base != ""
    ensures var path := Below(base, dirs);
            Below(base, dirs + [dir]) == path + (if Last(path) == '/' then "" else "/") + dir
  {
    assert (dirs + [dir])[..|dirs|] == dirs;
  }

  lemma OneMoreRelative(dirs: seq<string>, m: nat, path: string, dir: string)
    requires PathFrom(dirs, m, path) && !Absolute(dir)
    ensures PathFrom(dirs + [dir], m, JoinPath(path, dir))
  {
    var more, base := dirs + [dir], if m == 0 then "." else dirs[m - 1];
    assert more[m..] == dirs[m..] + [dir];
    BelowMore(base, dirs[m..], dir);
    assert forall k :: 0 <= k < |dirs| ==> more[k] == dirs[k];
    if Last(path) == '/' {
      assert path + "" + dir == path + dir;
    }
  }

  // ----- what a process is started with

  /** A file of this name was opened with this handle just before, among the files opened for the same process. */
  ghost predicate OpenedAs(before: seq<Event>, target: Target, name: string) {
    target.Handle? && exists k :: 0 <= k < |before| && before[k] == Opened(target.id, name) && OpensOnly(before, k)
  }

  predicate OpensOnly(before: seq<Event>, k: nat) {
    forall m :: k < m < |before| ==> before[m].Opened?
  }

  /** Behind a pipe, a process reads from the command that writes into it; else from the file its node names, or what the runner reads. */
  ghost predicate ReadsFrom(nodes: seq<Node>, pos: nat, stdin: Target, before: seq<Event>)
    requires pos < |nodes| && nodes[pos].Command?
  {
    if BehindPipe(nodes, 0, pos) then stdin.Upstream? && Pipes(nodes, stdin.pos, pos)
    else if nodes[pos].stdin.File? then OpenedAs(before, stdin, nodes[pos].stdin.name)
    else stdin == Default
  }

  ghost predicate WritesTo(s: Stream, target: Target, before: seq<Event>) {
    match s
    case Inherited => target == Default
    case PipeEnd => target == NewPipe
    case SameAsStdout => target == Merged
    case File(name) => if name == "/dev/null" || name == "NUL:" then target == DevNull else OpenedAs(before, target, name)
  }

  predicate OpenedBefore(a: Target, b: Target) {
    a.Handle? && b.Handle? ==> a.id < b.id
  }

  /** This process is started as its node says, and in the directory that the changes of directory before it lead to. */
  ghost predicate StartedAs(nodes: seq<Node>, before: seq<Event>, e: Event)
    requires e.Started?
  {
    && e.pos < |nodes| && nodes[e.pos].Command?
    && e.argv == nodes[e.pos].argv && e.env == nodes[e.pos].env
    && ReadsFrom(nodes, e.pos, e.stdin, before)
    && WritesTo(nodes[e.pos].stdout, e.stdout, before) && WritesTo(nodes[e.pos].stderr, e.stderr, before)
    // its input is opened first, then where its output goes, then where its errors go
    && OpenedBefore(e.stdin, e.stdout) && OpenedBefore(e.stdin, e.stderr) && OpenedBefore(e.stdout, e.stderr)
    && (exists path :: LeadTo(Directories(nodes, e.pos), path) && e.cwd == if path == "." then None else Some(path))
  }

  /** Every process is. */
  ghost predicate AsWritten(nodes: seq<Node>, t: seq<Event>) {
    forall i :: 0 <= i < |t| && t[i].Started? ==> StartedAs(nodes, t[..i], t[i])
  }

  /** Every file opened is for the process started next. */
  ghost predicate FilesUsed(t: seq<Event>) {
    forall i :: 0 <= i < |t| && t[i].Opened? ==> UsedNext(t, i)
  }

  ghost predicate UsedNext(t: seq<Event>, i: nat)
    requires i < |t| && t[i].Opened?
  {
    exists j :: i < j < |t| && t[j].Started? && Handle(t[i].id) in {t[j].stdin, t[j].stdout, t[j].stderr}
             && forall m :: i < m < j ==> t[m].Opened?
  }

  // ----- the stages of a chain are the nodes

  ghost predicate StageOf(nodes: seq<Node>, stage: Stage) {
    && stage.pos % 2 == 0 && stage.pos < |nodes| && stage.cmd == nodes[stage.pos] && stage.cmd.Command?
    && LeadTo(Directories(nodes, stage.pos), stage.cwd)
  }

  ghost predicate GroupOf(nodes: seq<Node>, g: Group) {
    && (forall k :: 0 <= k < |g| ==> StageOf(nodes, g[k]))
    && (g != [] ==> !BehindPipe(nodes, 0, g[0].pos))
    && forall k :: 0 < k < |g| ==> PipesInto(nodes, g, k)
  }

  /** The stage before the k-th writes into a pipe that leads to it. */
  predicate PipesInto(nodes: seq<Node>, g: Group, k: nat)
    requires 0 < k < |g| && g[k].pos < |nodes|
  {
    Pipes(nodes, g[k - 1].pos, g[k].pos)
  }

  ghost predicate ChainOf(nodes: seq<Node>, c: Chain) {
    match c
    case Final(g) => GroupOf(nodes, g)
    case AndThen(g, rest) => GroupOf(nodes, g) && ChainOf(nodes, rest)
    case OrElse(g, rest) => GroupOf(nodes, g) && ChainOf(nodes, rest)
    case Broken(g) => GroupOf(nodes, g)
  }

  /** What has been read when position i is reached. */
  ghost predicate ReadTo(nodes: seq<Node>, i: nat, cwd: string, group: Group)
    requires i < |nodes|
  {
    && GroupOf(nodes, group) && LeadTo(Directories(nodes, i), cwd)
    && if group == [] then !BehindPipe(nodes, 0, i) else Pipes(nodes, Last(group).pos, i)
  }

  /** Two nodes on, a change of directory changes nothing about pipes, and a command is behind one only if it is joined to one. */
  lemma BehindFurther(nodes: seq<Node>, i: nat, next: nat)
    requires Alternates(nodes) && i % 2 == 0 && next == i + 2 < |nodes| && BehindPipe(nodes, 0, next)
    ensures nodes[i].Chdir? ==> BehindPipe(nodes, 0, i)
    ensures nodes[i].Command? ==> nodes[i + 1].PipeOp?
  {
    OperandAt(nodes, i);
    var j :| 0 <= j < next && Pipes(nodes, j, next);
    assert j < i ==> nodes[i].Chdir? && Pipes(nodes, j, i);
  }

  lemma DirectoriesFurther(nodes: seq<Node>, i: nat)
    requires Alternates(nodes) && i % 2 == 0 && i + 2 < |nodes|
    ensures nodes[i].Chdir? && nodes[i].dir.Some? ==> Directories(nodes, i + 2) == Directories(nodes, i) + [nodes[i].dir.value]
    ensures nodes[i].Command? ==> Directories(nodes, i + 2) == Directories(nodes, i)
  {
    OperandAt(nodes, i);
    assert Directories(nodes, i + 2) == Directories(nodes, i + 1);
  }

  lemma ReadChdir(nodes: seq<Node>, i: nat, cwd: string, group: Group)
    requires Alternates(nodes) && i % 2 == 0 && i + 2 < |nodes| && ReadTo(nodes, i, cwd, group)
    requires nodes[i].Chdir? && nodes[i].dir.Some?
    ensures ReadTo(nodes, i + 2, JoinPath(cwd, nodes[i].dir.value), group)
  {
    OneMoreDirectory(Directories(nodes, i), cwd, nodes[i].dir.value);
    DirectoriesFurther(nodes, i);
    StillPiped(nodes, i, group);
  }

  lemma StillPiped(nodes: seq<Node>, i: nat, group: Group)
    requires Alternates(nodes) && i % 2 == 0 && i + 2 < |nodes| && nodes[i].Chdir?
    requires if group == [] then !BehindPipe(nodes, 0, i) else Pipes(nodes, Last(group).pos, i)
    ensures if group == [] then !BehindPipe(nodes, 0, i + 2) else Pipes(nodes, Last(group).pos, i + 2)
  {
    if BehindPipe(nodes, 0, i + 2) {
      BehindFurther(nodes, i, i + 2);
    }
  }

  lemma GroupOfMore(nodes: seq<Node>, i: nat, cwd: string, group: Group)
    requires i % 2 == 0 && i < |nodes| && ReadTo(nodes, i, cwd, group) && nodes[i].Command?
    ensures GroupOf(nodes, group + [Stage(i, nodes[i], cwd)])
  {
    var more, stage := group + [Stage(i, nodes[i], cwd)], Stage(i, nodes[i], cwd);
    assert StageOf(nodes, stage);
    forall k | 0 < k < |more| ensures PipesInto(nodes, more, k) {
      assert k < |group| ==> PipesInto(nodes, group, k);
    }
  }

  lemma ReadCommand(nodes: seq<Node>, i: nat, cwd: string, group: Group)
    requires Alternates(nodes) && i % 2 == 0 && i + 2 < |nodes| && ReadTo(nodes, i, cwd, group) && nodes[i].Command?
    ensures ReadTo(nodes, i + 2, cwd, if nodes[i + 1].PipeOp? then group + [Stage(i, nodes[i], cwd)] else [])
  {
    GroupOfMore(nodes, i, cwd, group);
    DirectoriesFurther(nodes, i);
    if nodes[i + 1].PipeOp? {
      assert Pipes(nodes, i, i + 2);
    } else if BehindPipe(nodes, 0, i + 2) {
      BehindFurther(nodes, i, i + 2);
    }
  }

  lemma ChainOfMore(nodes: seq<Node>, i: nat, cwd: string, group: Group, more: Group, rest: Chain)
    requires Alternates(nodes) && i % 2 == 0 && i + 2 < |nodes| && nodes[i].Command?
    requires more == group + [Stage(i, nodes[i], cwd)] && GroupOf(nodes, more)
    requires rest == ReadChain(nodes, i + 2, cwd, if nodes[i + 1].PipeOp? then more else []) && ChainOf(nodes, rest)
    ensures ChainOf(nodes, ReadChain(nodes, i, cwd, group))
  {
    OperandAt(nodes, i);
    var c := ReadChain(nodes, i, cwd, group);
    assert c == match nodes[i + 1] case PipeOp => rest case AndOp => AndThen(more, rest) case _ => OrElse(more, rest);
  }

  lemma {:induction false} ReadChainOf(nodes: seq<Node>, i: nat, cwd: string, group: Group)
    requires Alternates(nodes) && i % 2 == 0 && i < |nodes| && ReadTo(nodes, i, cwd, group)
    ensures ChainOf(nodes, ReadChain(nodes, i, cwd, group))
    decreases |nodes| - i
  {
    OperandAt(nodes, i);
    var n, next := nodes[i], i + 2;
    if n.Chdir? {
      if next < |nodes| && n.dir.Some? {
        var cwd' := JoinPath(cwd, n.dir.value);
        ReadChdir(nodes, i, cwd, group);
        ReadChainOf(nodes, next, cwd', group);
        assert ReadChain(nodes, i, cwd, group) == ReadChain(nodes, next, cwd', group);
      }
    } else {
      var more := group + [Stage(i, n, cwd)];
      GroupOfMore(nodes, i, cwd, group);
      if next < |nodes| {
        var group' := if nodes[i + 1].PipeOp? then more else [];
        ReadCommand(nodes, i, cwd, group);
        ReadChainOf(nodes, next, cwd, group');
        ChainOfMore(nodes, i, cwd, group, more, ReadChain(nodes, next, cwd, group'));
      } else {
        assert ReadChain(nodes, i, cwd, group) == Final(more);
      }
    }
  }

  lemma WholeChainOf(nodes: seq<Node>)
    requires Alternates(nodes)
    ensures ChainOf(nodes, ReadChain(nodes, 0, ".", []))
  {
    assert PathFrom([], 0, ".");
    ReadChainOf(nodes, 0, ".", []);
  }

  // ----- so the events are those that the nodes name

  /** What a stage adds: the files it opens, and its start. */
  lemma StageEvents(stage: Stage, upstream: Option<nat>, l: Launched)
    requires stage.cmd.Command?
    ensures var c := stage.cmd; var l1 := AfterIn(c.stdin, upstream, l); var l2 := AfterOut(c.stdout, l1); var l3 := AfterOut(c.stderr, l2);
            var t := LaunchStage(stage, upstream, l).events;
            && l.events <= l1.events <= l2.events <= l3.events && l.next <= l1.next <= l2.next
            && t == l3.events + [StartEvent(stage, InTarget(c.stdin, upstream, l), OutTarget(c.stdout, l1), OutTarget(c.stderr, l2))]
            && (forall k :: |l.events| <= k < |l3.events| ==> t[k].Opened?)
  {
    StageStartsOne(stage, upstream, l);
  }

  /** A stream that goes to a file gets the handle that is opened for it; nothing else is opened. */
  lemma OutOpens(s: Stream, l: Launched, before: seq<Event>)
    requires AfterOut(s, l).events <= before && forall k :: |l.events| <= k < |before| ==> before[k].Opened?
    ensures WritesTo(s, OutTarget(s, l), before)
    ensures OutTarget(s, l).Handle? ==> OutTarget(s, l).id == l.next && AfterOut(s, l).next == l.next + 1
    ensures AfterOut(s, l).events == l.events + if OutTarget(s, l).Handle? then [Opened(l.next, s.name)] else []
  {
    if OutTarget(s, l).Handle? {
      assert before[|l.events|] == AfterOut(s, l).events[|l.events|] == Opened(l.next, s.name);
      assert OpensOnly(before, |l.events|);
    }
  }

  lemma InOpens(s: Stream, upstream: Option<nat>, l: Launched, before: seq<Event>)
    requires AfterIn(s, upstream, l).events <= before && forall k :: |l.events| <= k < |before| ==> before[k].Opened?
    ensures upstream.None? ==> if s.File? then OpenedAs(before, InTarget(s, upstream, l), s.name) else InTarget(s, upstream, l) == Default
    ensures InTarget(s, upstream, l).Handle? ==> InTarget(s, upstream, l).id == l.next && AfterIn(s, upstream, l).next == l.next + 1
    ensures AfterIn(s, upstream, l).events == l.events + if InTarget(s, upstream, l).Handle? then [Opened(l.next, s.name)] else []
  {
    if InTarget(s, upstream, l).Handle? {
      assert before[|l.events|] == AfterIn(s, upstream, l).events[|l.events|] == Opened(l.next, s.name);
      assert OpensOnly(before, |l.events|);
    }
  }

  ghost predicate UpstreamOf(nodes: seq<Node>, pos: nat, upstream: Option<nat>)
    requires pos < |nodes|
  {
    if BehindPipe(nodes, 0, pos) then upstream.Some? && Pipes(nodes, upstream.value, pos) else upstream == None
  }

  /** What a stage is started with, told from its command. */
  lemma StageStreams(stage: Stage, upstream: Option<nat>, l: Launched)
    requires stage.cmd.Command?
    ensures var t := LaunchStage(stage, upstream, l).events; l.events < t && StageStart(stage, upstream, t[..|t| - 1], Last(t))
  {
    var c := stage.cmd;
    var l1 := AfterIn(c.stdin, upstream, l);
    var l2 := AfterOut(c.stdout, l1);
    var l3 := AfterOut(c.stderr, l2);
    StageEvents(stage, upstream, l);
    InOpens(c.stdin, upstream, l, l3.events);
    OutOpens(c.stdout, l1, l3.events);
    OutOpens(c.stderr, l2, l3.events);
  }

  ghost predicate StageStart(stage: Stage, upstream: Option<nat>, before: seq<Event>, e: Event)
    requires stage.cmd.Command?
  {
    var c := stage.cmd;
    && e.Started? && e.pos == stage.pos && e.argv == c.argv && e.env == c.env
    && e.cwd == (if stage.cwd == "." then None else Some(stage.cwd))
    && (if upstream.Some? then e.stdin == Upstream(upstream.value)
        else if c.stdin.File? then OpenedAs(before, e.stdin, c.stdin.name) else e.stdin == Default)
    && WritesTo(c.stdout, e.stdout, before) && WritesTo(c.stderr, e.stderr, before)
  }

  lemma StageStartedAs(nodes: seq<Node>, stage: Stage, upstream: Option<nat>, l: Launched)
    requires StageOf(nodes, stage) && UpstreamOf(nodes, stage.pos, upstream)
    ensures var t := LaunchStage(stage, upstream, l).events; var n := |t| - 1;
            && |l.events| <= n && t[..|l.events|] == l.events
            && t[n].Started? && t[n].pos == stage.pos && StartedAs(nodes, t[..n], t[n])
  {
    var c := stage.cmd;
    var l1 := AfterIn(c.stdin, upstream, l);
    var l2 := AfterOut(c.stdout, l1);
    var l3 := AfterOut(c.stderr, l2);
    var t := LaunchStage(stage, upstream, l).events;
    var n := |t| - 1;
    StageEvents(stage, upstream, l);
    assert t[..n] == l3.events;
    InOpens(c.stdin, upstream, l, t[..n]);
    OutOpens(c.stdout, l1, t[..n]);
    OutOpens(c.stderr, l2, t[..n]);
  }

  lemma StageUses(stage: Stage, upstream: Option<nat>, l: Launched)
    requires stage.cmd.Command?
    ensures var t := LaunchStage(stage, upstream, l).events;
            forall k :: |l.events| <= k < |t| - 1 ==> t[k].Opened? && UsedNext(t, k)
  {
    var c := stage.cmd;
    var l1 := AfterIn(c.stdin, upstream, l);
    var l2 := AfterOut(c.stdout, l1);
    var l3 := AfterOut(c.stderr, l2);
    var t := LaunchStage(stage, upstream, l).events;
    var n := |t| - 1;
    StageEvents(stage, upstream, l);
    InOpens(c.stdin, upstream, l, l3.events);
    OutOpens(c.stdout, l1, l3.events);
    OutOpens(c.stderr, l2, l3.events);
    forall k | |l.events| <= k < n ensures UsedNext(t, k) {
      assert t[k] == l3.events[k];
      assert Handle(t[k].id) in {t[n].stdin, t[n].stdout, t[n].stderr};
    }
  }

  /** Every process is started as its node says, and every file opened is for the process started next. */
  ghost predicate Written(nodes: seq<Node>, t: seq<Event>) {
    AsWritten(nodes, t) && FilesUsed(t)
  }

  lemma OpenedLater(a: seq<Event>, before: seq<Event>, target: Target, name: string)
    requires OpenedAs(before, target, name)
    ensures OpenedAs(a + before, target, name)
  {
    var k :| 0 <= k < |before| && before[k] == Opened(target.id, name) && OpensOnly(before, k);
    var t := a + before;
    assert t[|a| + k] == before[k];
    forall m | |a| + k < m < |t| ensures t[m].Opened? {
      assert t[m] == before[m - |a|];
    }
    assert OpensOnly(t, |a| + k);
  }

  lemma WritesLater(a: seq<Event>, before: seq<Event>, s: Stream, target: Target)
    requires WritesTo(s, target, before)
    ensures WritesTo(s, target, a + before)
  {
    if OpenedAs(before, target, if s.File? then s.name else "") {
      OpenedLater(a, before, target, if s.File? then s.name else "");
    }
  }

  lemma StartedLater(nodes: seq<Node>, a: seq<Event>, before: seq<Event>, e: Event)
    requires e.Started? && StartedAs(nodes, before, e)
    ensures StartedAs(nodes, a + before, e)
  {
    WritesLater(a, before, nodes[e.pos].stdout, e.stdout);
    WritesLater(a, before, nodes[e.pos].stderr, e.stderr);
    if !BehindPipe(nodes, 0, e.pos) && nodes[e.pos].stdin.File? {
      OpenedLater(a, before, e.stdin, nodes[e.pos].stdin.name);
    }
  }

  /** What comes later does not matter to a file opened, nor what came before. */
  lemma UsedWithin(t: seq<Event>, lo: nat, part: seq<Event>, i: nat)
    requires lo + |part| <= |t| && t[lo..lo + |part|] == part && i < |part| && part[i].Opened? && UsedNext(part, i)
    ensures t[lo + i] == part[i] && UsedNext(t, lo + i)
  {
    forall m | 0 <= m < |part| ensures t[lo + m] == part[m] {
      assert t[lo..lo + |part|][m] == part[m];
    }
    var j :| i < j < |part| && part[j].Started? && Handle(part[i].id) in {part[j].stdin, part[j].stdout, part[j].stderr}
             && forall m :: i < m < j ==> part[m].Opened?;
    forall m | lo + i < m < lo + j ensures t[m].Opened? {
      assert part[m - lo].Opened?;
    }
    assert t[lo + j] == part[j];
  }

  lemma AsWrittenConcat(nodes: seq<Node>, a: seq<Event>, b: seq<Event>)
    requires AsWritten(nodes, a) && AsWritten(nodes, b)
    ensures AsWritten(nodes, a + b)
  {
    var t := a + b;
    forall i | 0 <= i < |t| && t[i].Started? ensures StartedAs(nodes, t[..i], t[i]) {
      if i < |a| {
        assert t[..i] == a[..i];
      } else {
        assert t[..i] == a + b[..i - |a|];
        StartedLater(nodes, a, b[..i - |a|], b[i - |a|]);
      }
    }
  }

  lemma FilesUsedConcat(a: seq<Event>, b: seq<Event>)
    requires FilesUsed(a) && FilesUsed(b)
    ensures FilesUsed(a + b)
  {
    var t := a + b;
    forall i | 0 <= i < |t| && t[i].Opened? ensures UsedNext(t, i) {
      if i < |a| {
        UsedWithin(t, 0, a, i);
      } else {
        UsedWithin(t, |a|, b, i - |a|);
      }
    }
  }

  lemma WrittenConcat(nodes: seq<Node>, a: seq<Event>, b: seq<Event>)
    requires Written(nodes, a) && Written(nodes, b)
    ensures Written(nodes, a + b)
  {
    AsWrittenConcat(nodes, a, b);
    FilesUsedConcat(a, b);
  }

  lemma AsWrittenMore(nodes: seq<Node>, a: seq<Event>, t: seq<Event>)
    requires AsWritten(nodes, a) && |a| < |t| && t[..|a|] == a
    requires Last(t).Started? && StartedAs(nodes, t[..|t| - 1], Last(t))
    requires forall k :: |a| <= k < |t| - 1 ==> t[k].Opened?
    ensures AsWritten(nodes, t)
  {
    forall i | 0 <= i < |t| && t[i].Started? ensures StartedAs(nodes, t[..i], t[i]) {
      if i < |a| {
        assert t[..i] == a[..i] && t[i] == a[i];
      }
    }
  }

  lemma FilesUsedMore(a: seq<Event>, t: seq<Event>)
    requires FilesUsed(a) && |a| < |t| && t[..|a|] == a && Last(t).Started?
    requires forall k :: |a| <= k < |t| - 1 ==> t[k].Opened? && UsedNext(t, k)
    ensures FilesUsed(t)
  {
    forall i | 0 <= i < |t| && t[i].Opened? ensures UsedNext(t, i) {
      if i < |a| {
        assert t[i] == a[i];
        UsedWithin(t, 0, a, i);
      }
    }
  }

  lemma StageWritten(nodes: seq<Node>, g: Group, n: nat, next: nat)
    requires GroupOf(nodes, g) && AllCommands(g) && n < |g| && Written(nodes, LaunchFirst(g, n, next).events)
    ensures Written(nodes, LaunchFirst(g, n + 1, next).events)
  {
    var l, upstream := LaunchFirst(g, n, next), Before(g, n);
    assert n > 0 ==> PipesInto(nodes, g, n);
    assert StageOf(nodes, g[n]) && UpstreamOf(nodes, g[n].pos, upstream);
    StageStartedAs(nodes, g[n], upstream, l);
    StageUses(g[n], upstream, l);
    AsWrittenMore(nodes, l.events, LaunchStage(g[n], upstream, l).events);
    FilesUsedMore(l.events, LaunchStage(g[n], upstream, l).events);
  }

  ghost predicate WrittenFirst(nodes: seq<Node>, g: Group, n: nat, next: nat) {
    n <= |g| && AllCommands(g) && Written(nodes, LaunchFirst(g, n, next).events)
  }

  lemma LaunchWritten(nodes: seq<Node>, g: Group, next: nat)
    requires GroupOf(nodes, g) && AllCommands(g)
    ensures Written(nodes, Launch(g, next).events)
  {
    assert WrittenFirst(nodes, g, 0, next);
    forall m: nat | m < |g| && WrittenFirst(nodes, g, m, next) ensures WrittenFirst(nodes, g, m + 1, next) {
      StageWritten(nodes, g, m, next);
    }
    Upwards((n: nat) => WrittenFirst(nodes, g, n, next), |g|, |g|);
    assert WrittenFirst(nodes, g, |g|, next);
  }

  lemma GroupWritten(nodes: seq<Node>, g: Group, next: nat)
    requires GroupOf(nodes, g) && AllCommands(g)
    ensures Written(nodes, GroupEvents(g, next))
  {
    var l := Launch(g, next);
    LaunchWritten(nodes, g, next);
    ClosesOnly(l.files);
    WrittenConcat(nodes, l.events, Waits(g) + Closes(l.files));
  }

  /** Whatever the exit codes, whatever becomes of the run. */
  lemma {:induction false} RunWritten(nodes: seq<Node>, c: Chain, code: nat -> int, next: nat)
    requires ChainOf(nodes, c) && Sound(c)
    ensures Written(nodes, Events(c, code, next))
  {
    if c.Broken? {
      LaunchWritten(nodes, c.partial, next);
    } else {
      var mine, next' := GroupEvents(c.group, next), Launch(c.group, next).next;
      GroupWritten(nodes, c.group, next);
      if c.Final? {
      } else {
        RunWritten(nodes, c.rest, code, next');
        WrittenConcat(nodes, mine, Events(c.rest, code, next'));
        assert mine + [] == mine;
      }
    }
  }
}
