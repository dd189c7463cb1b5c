// Running a parsed pipeline: processes started and waited for, files opened and closed.
module ShellRunner {
  import opened Wrappers
  import opened Sequences
  import opened ShellParser
  import opened ShellChains

  /** What a process is given for one of its streams; handles are numbered in the order of opening. */
  datatype Target = Default | NewPipe | Merged | Upstream(pos: nat) | DevNull | Handle(id: nat)

  datatype Event =
    | Opened(id: nat, name: string)
    | Started(pos: nat, argv: seq<string>, stdin: Target, stdout: Target, stderr: Target, env: map<string, string>, cwd: Option<string>)
    | Waited(pos: nat)
    | Closed(id: nat)

  /** Events so far, the number the next opened file gets, and the files to close, dev_null among them. */
  datatype Launched = Launched(events: seq<Event>, next: nat, files: seq<Target>)

  predicate IsDevNull(name: string) {
    name == "NUL:" || name == "/dev/null"
  }

  // ----- what a group does, as a function of its stages

  function OpenFile(name: string, l: Launched): Launched {
    Launched(l.events + [Opened(l.next, name)], l.next + 1, l.files + [Handle(l.next)])
  }

  /** A redirected input is opened only if there is no process to read from. */
  function AfterIn(s: Stream, upstream: Option<nat>, l: Launched): Launched {
    if upstream.None? && s.File? then OpenFile(s.name, l) else l
  }

  function InTarget(s: Stream, upstream: Option<nat>, l: Launched): Target {
    if upstream.Some? then Upstream(upstream.value) else if s.File? then Handle(l.next) else Default
  }

  /** Output files: dev_null is kept open throughout and shared. */
  function AfterOut(s: Stream, l: Launched): Launched {
    if !s.File? then l
    else if IsDevNull(s.name) then l.(files := l.files + [DevNull])
    else OpenFile(s.name, l)
  }

  function OutTarget(s: Stream, l: Launched): Target {
    match s
    case Inherited => Default
    case PipeEnd => NewPipe
    case SameAsStdout => Merged
    case File(name) => if IsDevNull(name) then DevNull else Handle(l.next)
  }

  function LaunchStage(stage: Stage, upstream: Option<nat>, l: Launched): Launched
    requires stage.cmd.Command?
  {
    var c := stage.cmd;
    var l1 := AfterIn(c.stdin, upstream, l);
    var l2 := AfterOut(c.stdout, l1);
    var l3 := AfterOut(c.stderr, l2);
    l3.(events := l3.events + [StartEvent(stage, InTarget(c.stdin, upstream, l), OutTarget(c.stdout, l1), OutTarget(c.stderr, l2))])
  }

  function StartEvent(stage: Stage, stdin: Target, stdout: Target, stderr: Target): Event
    requires stage.cmd.Command?
  {
    Started(stage.pos, stage.cmd.argv, stdin, stdout, stderr, stage.cmd.env, if stage.cwd == "." then None else Some(stage.cwd))
  }

  /** The process stage n of a group reads from. */
  function Before(g: Group, n: nat): Option<nat>
    requires n <= |g|
  {
    if n == 0 then None else Some(g[n - 1].pos)
  }

  /** The first n stages of a group have been started. */
  function LaunchFirst(g: Group, n: nat, next: nat): Launched
    requires n <= |g| && AllCommands(g)
  {
    if n == 0 then Launched([], next, []) else LaunchStage(g[n - 1], Before(g, n - 1), LaunchFirst(g, n - 1, next))
  }

  function Launch(g: Group, next: nat): Launched
    requires AllCommands(g)
  {
    LaunchFirst(g, |g|, next)
  }

  lemma {:induction false} LaunchGrows(g: Group, stage: Stage, n: nat, next: nat)
    requires n <= |g| && AllCommands(g) && stage.cmd.Command?
    ensures LaunchFirst(g + [stage], n, next) == LaunchFirst(g, n, next)
  {
    if n > 0 {
      LaunchGrows(g, stage, n - 1, next);
    }
  }

  function Waits(g: Group): seq<Event> {
    seq(|g|, k requires 0 <= k < |g| => Waited(g[k].pos))
  }

  function Closes(files: seq<Target>): seq<Event> {
    if files == [] then []
    else Closes(files[..|files| - 1]) + if Last(files).Handle? then [Closed(Last(files).id)] else []
  }

  function GroupEvents(g: Group, next: nat): seq<Event>
    requires AllCommands(g)
  {
    var l := Launch(g, next);
    l.events + (Waits(g) + Closes(l.files))
  }

  /** Everything that happens while a chain is run: the groups that are reached, each started, waited for and closed in turn. */
  function Events(c: Chain, code: nat -> int, next: nat): seq<Event>
    requires Sound(c)
  {
    match c
    case Final(g) => GroupEvents(g, next)
    case AndThen(g, rest) =>
      GroupEvents(g, next) + if GroupStatus(g, code) == 0 then Events(rest, code, Launch(g, next).next) else []
    case OrElse(g, rest) =>
      GroupEvents(g, next) + if GroupStatus(g, code) == 0 then [] else Events(rest, code, Launch(g, next).next)
    case Broken(g) => Launch(g, next).events
  }

  // ----- nothing is leaked

  datatype Kind = Start | Wait | Open | Close

  /** The process or file an event of this kind is about. */
  function Id(e: Event, kind: Kind): seq<nat> {
    match (e, kind)
    case (Started(pos, _, _, _, _, _, _), Start) => [pos]
    case (Waited(pos), Wait) => [pos]
    case (Opened(id, _), Open) => [id]
    case (Closed(id), Close) => [id]
    case _ => []
  }

  /** The processes or files that the first n events of this kind in t are about, in order. */
  function IdsUpTo(t: seq<Event>, kind: Kind, n: nat): seq<nat>
    requires n <= |t|
  {
    if n == 0 then [] else IdsUpTo(t, kind, n - 1) + Id(t[n - 1], kind)
  }

  function Ids(t: seq<Event>, kind: Kind): seq<nat> {
    IdsUpTo(t, kind, |t|)
  }

  ghost predicate Increasing(s: seq<nat>) {
    forall i, j :: 0 <= i < j < |s| ==> s[i] < s[j]
  }

  function Range(lo: nat, hi: nat): seq<nat>
    requires lo <= hi
  {
    seq(hi - lo, k => lo + k)
  }

  /** Every process started is waited for, in order. */
  ghost predicate AllWaited(t: seq<Event>) {
    Ids(t, Start) == Ids(t, Wait)
  }

  /** The files numbered from lo to hi have been opened and closed, each once, in order. */
  ghost predicate AllClosed(t: seq<Event>, lo: nat, hi: nat) {
    lo <= hi && Ids(t, Open) == Range(lo, hi) && Ids(t, Close) == Range(lo, hi)
  }

  lemma {:induction false} IdsOfConcat(a: seq<Event>, b: seq<Event>, kind: Kind, n: nat)
    requires n <= |a| + |b|
    ensures IdsUpTo(a + b, kind, n) == if n <= |a| then IdsUpTo(a, kind, n) else Ids(a, kind) + IdsUpTo(b, kind, n - |a|)
  {
    if n > 0 {
      IdsOfConcat(a, b, kind, n - 1);
    }
  }

  lemma ConcatId(a: seq<Event>, b: seq<Event>, kind: Kind)
    ensures Ids(a + b, kind) == Ids(a, kind) + Ids(b, kind)
  {
    IdsOfConcat(a, b, kind, |a| + |b|);
  }

  lemma ConcatIds(a: seq<Event>, b: seq<Event>)
    ensures forall kind :: Ids(a + b, kind) == Ids(a, kind) + Ids(b, kind)
  {
    forall kind ensures Ids(a + b, kind) == Ids(a, kind) + Ids(b, kind) {
      ConcatId(a, b, kind);
    }
  }

  lemma AppendIds(a: seq<Event>, e: Event)
    ensures forall kind :: Ids(a + [e], kind) == Ids(a, kind) + Id(e, kind)
  {
    ConcatIds(a, [e]);
    assert forall kind :: IdsUpTo([e], kind, 1) == IdsUpTo([e], kind, 0) + Id(e, kind);
  }

  function Positions(g: Group): seq<nat> {
    seq(|g|, k requires 0 <= k < |g| => g[k].pos)
  }

  /** The handles among the files to close. */
  function Handles(files: seq<Target>): seq<nat> {
    if files == [] then []
    else Handles(files[..|files| - 1]) + if Last(files).Handle? then [Last(files).id] else []
  }

  /** What launching keeps: the files to close are those opened, numbered upwards from the first. */
  ghost predicate Tracks(l: Launched, from: nat) {
    && Ids(l.events, Close) == [] && Ids(l.events, Wait) == []
    && from <= l.next
    && Ids(l.events, Open) == Range(from, l.next)
    && Handles(l.files) == Range(from, l.next)
  }

  lemma HandlesMore(files: seq<Target>, t: Target)
    ensures Handles(files + [t]) == Handles(files) + if t.Handle? then [t.id] else []
  {
    assert (files + [t])[..|files|] == files;
  }

  lemma RangeMore(lo: nat, hi: nat)
    requires lo <= hi
    ensures Range(lo, hi + 1) == Range(lo, hi) + [hi]
  {
  }

  lemma OpenedIds(name: string, l: Launched, kind: Kind)
    ensures Ids(OpenFile(name, l).events, kind) == Ids(l.events, kind) + if kind == Open then [l.next] else []
  {
    AppendIds(l.events, Opened(l.next, name));
  }

  lemma OpenTracks(name: string, l: Launched, from: nat)
    requires Tracks(l, from)
    ensures Tracks(OpenFile(name, l), from) && Ids(OpenFile(name, l).events, Start) == Ids(l.events, Start)
  {
    OpenedIds(name, l, Start);
    OpenedIds(name, l, Wait);
    OpenedIds(name, l, Open);
    OpenedIds(name, l, Close);
    RangeMore(from, l.next);
    HandlesMore(l.files, Handle(l.next));
  }

  lemma DevNullTracks(l: Launched, from: nat)
    requires Tracks(l, from)
    ensures Tracks(l.(files := l.files + [DevNull]), from)
  {
    HandlesMore(l.files, DevNull);
  }

  lemma AfterInTracks(s: Stream, upstream: Option<nat>, l: Launched, from: nat)
    requires Tracks(l, from)
    ensures Tracks(AfterIn(s, upstream, l), from) && Ids(AfterIn(s, upstream, l).events, Start) == Ids(l.events, Start)
  {
    if s.File? {
      OpenTracks(s.name, l, from);
    }
  }

  lemma AfterOutTracks(s: Stream, l: Launched, from: nat)
    requires Tracks(l, from)
    ensures Tracks(AfterOut(s, l), from) && Ids(AfterOut(s, l).events, Start) == Ids(l.events, Start)
  {
    if s.File? {
      OpenTracks(s.name, l, from);
      DevNullTracks(l, from);
    }
  }

  lemma StageTracks(stage: Stage, upstream: Option<nat>, l: Launched, from: nat)
    requires stage.cmd.Command? && Tracks(l, from)
    ensures Tracks(LaunchStage(stage, upstream, l), from)
    ensures Ids(LaunchStage(stage, upstream, l).events, Start) == Ids(l.events, Start) + [stage.pos]
  {
    var c := stage.cmd;
    var l1 := AfterIn(c.stdin, upstream, l);
    var l2 := AfterOut(c.stdout, l1);
    var l3 := AfterOut(c.stderr, l2);
    AfterInTracks(c.stdin, upstream, l, from);
    AfterOutTracks(c.stdout, l1, from);
    AfterOutTracks(c.stderr, l2, from);
    var e := StartEvent(stage, InTarget(c.stdin, upstream, l), OutTarget(c.stdout, l1), OutTarget(c.stderr, l2));
    AppendIds(l3.events, e);
  }

  /** ids are the positions of the first n stages of g. */
  ghost predicate PositionsOf(ids: seq<nat>, g: Group, n: nat)
    requires n <= |g|
  {
    |ids| == n && forall k :: 0 <= k < n ==> ids[k] == g[k].pos
  }

  /** What launching the first n stages keeps, and which processes it starts. */
  ghost predicate LaunchedFirst(g: Group, n: nat, next: nat) {
    && n <= |g| && AllCommands(g)
    && Tracks(LaunchFirst(g, n, next), next)
    && PositionsOf(Ids(LaunchFirst(g, n, next).events, Start), g, n)
  }

  lemma LaunchOneMore(g: Group, n: nat, next: nat)
    requires n < |g| && LaunchedFirst(g, n, next)
    ensures LaunchedFirst(g, n + 1, next)
  {
    var l, stage, upstream := LaunchFirst(g, n, next), g[n], Before(g, n);
    StageTracks(stage, upstream, l, next);
    PositionsGrow(Ids(l.events, Start), g, n);
    assert LaunchFirst(g, n + 1, next) == LaunchStage(stage, upstream, l);
  }

  lemma LaunchTracks(g: Group, next: nat)
    requires AllCommands(g)
    ensures LaunchedFirst(g, |g|, next)
  {
    assert LaunchedFirst(g, 0, next);
    forall m: nat | m < |g| && LaunchedFirst(g, m, next) ensures LaunchedFirst(g, m + 1, next) {
      LaunchOneMore(g, m, next);
    }
    Upwards((n: nat) => LaunchedFirst(g, n, next), |g|, |g|);
  }

  lemma PositionsGrow(ids: seq<nat>, g: Group, n: nat)
    requires n < |g| && PositionsOf(ids, g, n)
    ensures PositionsOf(ids + [g[n].pos], g, n + 1)
  {
  }

  lemma {:induction false} WaitsIds(g: Group, kind: Kind, n: nat)
    requires n <= |g|
    ensures if kind == Wait then PositionsOf(IdsUpTo(Waits(g), kind, n), g, n) else IdsUpTo(Waits(g), kind, n) == []
  {
    if n > 0 {
      var waits := Waits(g);
      WaitsIds(g, kind, n - 1);
      assert waits[n - 1] == Waited(g[n - 1].pos);
      if kind == Wait {
        PositionsGrow(IdsUpTo(waits, kind, n - 1), g, n - 1);
      }
    }
  }

  lemma {:induction false} ClosesIds(files: seq<Target>, kind: Kind)
    ensures Ids(Closes(files), kind) == if kind == Close then Handles(files) else []
  {
    if files != [] {
      var front := files[..|files| - 1];
      ClosesIds(front, kind);
      if Last(files).Handle? {
        AppendIds(Closes(front), Closed(Last(files).id));
      } else {
        assert Closes(files) == Closes(front);
      }
    }
  }

  lemma WaitIds(g: Group, kind: Kind)
    ensures Ids(Waits(g), kind) == if kind == Wait then Positions(g) else []
  {
    WaitsIds(g, kind, |g|);
  }

  lemma FinishedIds(l: Launched, g: Group, kind: Kind)
    ensures Ids(l.events + (Waits(g) + Closes(l.files)), kind)
         == Ids(l.events, kind) + ((if kind == Wait then Positions(g) else []) + if kind == Close then Handles(l.files) else [])
  {
    var waits, closes := Waits(g), Closes(l.files);
    WaitIds(g, kind);
    ClosesIds(l.files, kind);
    ConcatId(waits, closes, kind);
    ConcatId(l.events, waits + closes, kind);
  }

  lemma FinishedGroup(l: Launched, g: Group, next: nat)
    requires Tracks(l, next) && PositionsOf(Ids(l.events, Start), g, |g|)
    ensures var t := l.events + (Waits(g) + Closes(l.files));
            AllWaited(t) && Ids(t, Start) == Positions(g) && AllClosed(t, next, l.next)
  {
    assert Ids(l.events, Start) == Positions(g);
    FinishedIds(l, g, Start);
    FinishedIds(l, g, Wait);
    FinishedIds(l, g, Open);
    FinishedIds(l, g, Close);
  }

  /** One group waits for all it starts and closes all it opens. */
  lemma GroupBalanced(g: Group, next: nat)
    requires AllCommands(g)
    ensures AllWaited(GroupEvents(g, next)) && Ids(GroupEvents(g, next), Start) == Positions(g)
    ensures AllClosed(GroupEvents(g, next), next, Launch(g, next).next)
  {
    LaunchTracks(g, next);
    FinishedGroup(Launch(g, next), g, next);
  }

  lemma ClosedConcat(a: seq<Event>, b: seq<Event>, lo: nat, mid: nat, hi: nat)
    requires AllWaited(a) && AllWaited(b)
    requires AllClosed(a, lo, mid) && AllClosed(b, mid, hi)
    ensures AllWaited(a + b) && Ids(a + b, Start) == Ids(a, Start) + Ids(b, Start)
    ensures AllClosed(a + b, lo, hi)
  {
    ConcatIds(a, b);
    assert Range(lo, mid) + Range(mid, hi) == Range(lo, hi);
  }

  /** Whenever a run returns a status, on whatever path, it has waited for every process and closed every file once. */
  lemma {:induction false} RunBalanced(c: Chain, code: nat -> int, next: nat) returns (end: nat)
    requires Sound(c)
    requires Eval(c, code).Status?
    ensures AllWaited(Events(c, code, next))
    ensures AllClosed(Events(c, code, next), next, end)
  {
    var s := GroupStatus(c.group, code);
    var next' := Launch(c.group, next).next;
    GroupBalanced(c.group, next);
    if c.Final? || (c.AndThen? && s != 0) || (c.OrElse? && s == 0) {
      assert Events(c, code, next) == GroupEvents(c.group, next);
      end := next';
    } else {
      end := RunBalanced(c.rest, code, next');
      ClosedConcat(GroupEvents(c.group, next), Events(c.rest, code, next'), next, next', end);
    }
  }

  /** The commands that a run has started when it raises. */
  function Abandoned(c: Chain, code: nat -> int): Group
    requires Sound(c)
  {
    match c
    case Final(_) => []
    case AndThen(g, rest) => if GroupStatus(g, code) == 0 then Abandoned(rest, code) else []
    case OrElse(g, rest) => if GroupStatus(g, code) == 0 then [] else Abandoned(rest, code)
    case Broken(g) => g
  }

  /** The processes with the ids in left have been started and not waited for, after all others have been. */
  ghost predicate AllWaitedBut(t: seq<Event>, left: seq<nat>) {
    Ids(t, Start) == Ids(t, Wait) + left
  }

  lemma WaitedConcat(a: seq<Event>, b: seq<Event>, left: seq<nat>)
    requires AllWaited(a) && AllWaitedBut(b, left)
    ensures AllWaitedBut(a + b, left)
  {
    ConcatIds(a, b);
  }

  /** The runner leaves behind exactly the processes of the group in which it raises. */
  lemma {:induction false} RunLeaves(c: Chain, code: nat -> int, next: nat)
    requires Sound(c)
    ensures AllCommands(Abandoned(c, code)) && (Abandoned(c, code) != [] ==> Eval(c, code) == Raised)
    ensures AllWaitedBut(Events(c, code, next), Positions(Abandoned(c, code)))
  {
    if c.Broken? {
      LaunchTracks(c.partial, next);
      assert Ids(Launch(c.partial, next).events, Start) == Positions(c.partial);
    } else {
      var s, next' := GroupStatus(c.group, code), Launch(c.group, next).next;
      var mine := GroupEvents(c.group, next);
      GroupBalanced(c.group, next);
      if c.Final? || (c.AndThen? && s != 0) || (c.OrElse? && s == 0) {
        assert Events(c, code, next) == mine;
        assert Ids(mine, Wait) + [] == Ids(mine, Wait);
      } else {
        RunLeaves(c.rest, code, next');
        WaitedConcat(mine, Events(c.rest, code, next'), Positions(Abandoned(c.rest, code)));
      }
    }
  }

  /** So all are waited for exactly when the run raises, if it does, with nothing started in its last group. */
  lemma WaitedIffNoneAbandoned(c: Chain, code: nat -> int, next: nat)
    requires Sound(c)
    ensures AllWaited(Events(c, code, next)) <==> Abandoned(c, code) == []
  {
    RunLeaves(c, code, next);
    assert |Positions(Abandoned(c, code))| == |Abandoned(c, code)|;
  }

  lemma {:induction false} AbandonedStranded(c: Chain, code: nat -> int)
    requires Sound(c)
    ensures Abandoned(c, code) == [] || Abandoned(c, code) == Stranded(c)
  {
    if c.AndThen? || c.OrElse? {
      AbandonedStranded(c.rest, code);
    }
  }

  /** Only the exit codes at positions from lo on matter. */
  lemma {:induction false} AbandonedSame(c: Chain, code: nat -> int, code': nat -> int, lo: nat)
    requires Proper(c, lo) && Sound(c) && forall k :: lo <= k ==> code(k) == code'(k)
    ensures Abandoned(c, code) == Abandoned(c, code')
  {
    if c.AndThen? || c.OrElse? {
      AbandonedSame(c.rest, code, code', Last(c.group).pos + 1);
    }
  }

  /** With these exit codes every group lets the run go on. */
  lemma {:induction false} ReachStranded(c: Chain, lo: nat) returns (code: nat -> int)
    requires Proper(c, lo) && Sound(c)
    ensures Abandoned(c, code) == Stranded(c)
  {
    if c.AndThen? || c.OrElse? {
      var p := Last(c.group).pos;
      var others := ReachStranded(c.rest, p + 1);
      code := (k: nat) => if k == p then if c.AndThen? then 0 else 1 else others(k);
      AbandonedSame(c.rest, others, code, p + 1);
    } else {
      code := _ => 0;
    }
  }

  ghost predicate AlwaysWaits(c: Chain)
    requires Sound(c)
  {
    forall code: nat -> int :: AllWaited(Events(c, code, 0))
  }

  lemma AlwaysWaitsIffNoneStranded(c: Chain, lo: nat)
    requires Proper(c, lo) && Sound(c)
    ensures AlwaysWaits(c) <==> Stranded(c) == []
  {
    if Stranded(c) == [] {
      forall code: nat -> int ensures AllWaited(Events(c, code, 0)) {
        AbandonedStranded(c, code);
        WaitedIffNoneAbandoned(c, code, 0);
      }
    } else {
      var code := ReachStranded(c, lo);
      WaitedIffNoneAbandoned(c, code, 0);
      assert !AllWaited(Events(c, code, 0));
    }
  }

  /** Every run of a pipeline waits for all it starts exactly when its first unperformable change of directory, if any, is not behind a pipe. */
  lemma AlwaysWaitsIff(nodes: seq<Node>)
    requires Alternates(nodes)
    ensures Sound(ReadChain(nodes, 0, ".", []))
    ensures AlwaysWaits(ReadChain(nodes, 0, ".", [])) <==> !PipedAway(nodes)
  {
    ReadChainProper(nodes, 0, ".", [], 0);
    ProperSound(ReadChain(nodes, 0, ".", []), 0);
    AlwaysWaitsIffNoneStranded(ReadChain(nodes, 0, ".", []), 0);
    StrandedIffPipedAway(nodes);
  }

  lemma IncreasingConcat(a: seq<nat>, b: seq<nat>, m: nat)
    requires Increasing(a) && Increasing(b)
    requires (forall x :: x in a ==> x < m) && forall x :: x in b ==> m <= x
    ensures Increasing(a + b)
  {
    var c := a + b;
    forall i, j | 0 <= i < j < |c| ensures c[i] < c[j] {
      if i < |a| <= j {
        assert a[i] in a && b[j - |a|] in b;
      }
    }
  }

  lemma PositionsIncrease(g: Group, lo: nat)
    requires g != [] && InOrder(g, lo)
    ensures Increasing(Positions(g))
    ensures forall x :: x in Positions(g) ==> lo <= x < Last(g).pos + 1
  {
  }

  /** No command of the pipeline is started twice. */
  lemma {:induction false} RunStartsOnce(c: Chain, code: nat -> int, lo: nat, next: nat)
    requires Proper(c, lo) && Sound(c)
    requires Eval(c, code).Status?
    ensures Increasing(Ids(Events(c, code, next), Start))
    ensures forall x :: x in Ids(Events(c, code, next), Start) ==> lo <= x
  {
    var s := GroupStatus(c.group, code);
    var mine, lo' := GroupEvents(c.group, next), Last(c.group).pos + 1;
    GroupBalanced(c.group, next);
    PositionsIncrease(c.group, lo);
    if c.Final? || (c.AndThen? && s != 0) || (c.OrElse? && s == 0) {
      assert Events(c, code, next) == mine;
    } else {
      var others := Events(c.rest, code, Launch(c.group, next).next);
      RunStartsOnce(c.rest, code, lo', Launch(c.group, next).next);
      ConcatIds(mine, others);
      IncreasingConcat(Ids(mine, Start), Ids(others, Start), lo');
      assert Positions(c.group)[0] in Positions(c.group);
    }
  }

  // ----- pipes are connected

  /** A process that reads from another one does so from one started before, whose output goes into a new pipe. */
  ghost predicate Connected(t: seq<Event>) {
    forall i :: 0 <= i < |t| && t[i].Started? && t[i].stdin.Upstream? ==> HasWriter(t[..i], t[i].stdin.pos)
  }

  ghost predicate HasWriter(t: seq<Event>, pos: nat) {
    exists j :: 0 <= j < |t| && t[j].Started? && t[j].pos == pos && t[j].stdout == NewPipe
  }

  lemma ConnectedConcat(a: seq<Event>, b: seq<Event>)
    requires Connected(a) && Connected(b)
    ensures Connected(a + b)
  {
    var c := a + b;
    forall i | 0 <= i < |c| && c[i].Started? && c[i].stdin.Upstream? ensures HasWriter(c[..i], c[i].stdin.pos) {
      if i < |a| {
        assert c[..i] == a[..i] && HasWriter(a[..i], a[i].stdin.pos);
      } else {
        var k := i - |a|;
        assert b[k] == c[i] && HasWriter(b[..k], b[k].stdin.pos);
        var j :| 0 <= j < k && b[j].Started? && b[j].pos == b[k].stdin.pos && b[j].stdout == NewPipe;
        assert c[..i][|a| + j] == b[j];
      }
    }
  }

  /** Opening files starts no process. */
  lemma StageStartsOne(stage: Stage, upstream: Option<nat>, l: Launched)
    requires stage.cmd.Command?
    ensures var l' := LaunchStage(stage, upstream, l); var n := |l'.events| - 1;
            && |l.events| <= n && l'.events[..|l.events|] == l.events
            && (forall k :: |l.events| <= k < n ==> l'.events[k].Opened?)
            && l'.events[n].Started? && l'.events[n].pos == stage.pos
            && (stage.cmd.stdout == PipeEnd ==> l'.events[n].stdout == NewPipe)
            && (l'.events[n].stdin.Upstream? ==> upstream == Some(l'.events[n].stdin.pos))
  {
  }

  lemma {:induction false} LaunchConnected(g: Group, n: nat, next: nat)
    requires n <= |g| && AllCommands(g)
    requires forall k :: 0 <= k < n - 1 ==> g[k].cmd.stdout == PipeEnd
    ensures Connected(LaunchFirst(g, n, next).events)
    ensures n > 0 && g[n - 1].cmd.stdout == PipeEnd ==> HasWriter(LaunchFirst(g, n, next).events, g[n - 1].pos)
  {
    if n > 0 {
      LaunchConnected(g, n - 1, next);
      var l, l' := LaunchFirst(g, n - 1, next), LaunchFirst(g, n, next);
      StageStartsOne(g[n - 1], Before(g, n - 1), l);
      forall i | 0 <= i < |l'.events| && l'.events[i].Started? && l'.events[i].stdin.Upstream?
        ensures HasWriter(l'.events[..i], l'.events[i].stdin.pos)
      {
        if i < |l.events| {
          assert l'.events[i] == l.events[i] && l'.events[..i] == l.events[..i];
          assert HasWriter(l.events[..i], l.events[i].stdin.pos);
        } else {
          var q := g[n - 2].pos;
          assert HasWriter(l.events, q);
          var j :| 0 <= j < |l.events| && l.events[j].Started? && l.events[j].pos == q && l.events[j].stdout == NewPipe;
          assert l'.events[..i][j] == l.events[j];
        }
      }
    }
  }

  lemma {:induction false} RunConnected(c: Chain, code: nat -> int, lo: nat, next: nat)
    requires Proper(c, lo) && Sound(c)
    ensures Connected(Events(c, code, next))
  {
    var g := if c.Broken? then c.partial else c.group;
    LaunchConnected(g, |g|, next);
    if !c.Broken? {
      var l := Launch(g, next);
      ClosesOnly(l.files);
      ConnectedConcat(l.events, Waits(g) + Closes(l.files));
      if !c.Final? {
        RunConnected(c.rest, code, Last(g).pos + 1, l.next);
        ConnectedConcat(GroupEvents(g, next), Events(c.rest, code, l.next));
        assert GroupEvents(g, next) + [] == GroupEvents(g, next);
      }
    }
  }

  lemma {:induction false} ClosesOnly(files: seq<Target>)
    ensures forall k :: 0 <= k < |Closes(files)| ==> Closes(files)[k].Closed?
  {
    if files != [] {
      ClosesOnly(files[..|files| - 1]);
    }
  }
}
