// The Pipeline class: parse fills it from tokens, run executes it.
module Shell {
  import opened Wrappers
  import opened Sequences
  import opened ShellParser
  import opened ShellChains
  import opened ShellRunner
  import opened ShellTrace
  import opened ShellOrder

  class Pipeline {
    var currentCommand: Option<Node>
    var pipeline: seq<Node>

    constructor ()
      ensures currentCommand == None && pipeline == []
    {
      currentCommand, pipeline := None, [];
    }

    method CommitCommand()
      requires currentCommand.Some?
      modifies this
      ensures pipeline == old(pipeline) + [old(currentCommand).value] && currentCommand == None
    {
      pipeline := pipeline + [currentCommand.value];
      currentCommand := None;
    }

    /** ok is false where an assertion fails; the pipeline is then whatever had been committed. */
    method ParseTokens(tokens0: seq<string>) returns (ok: bool)
      modifies this
      ensures ok <==> Parse(tokens0).Some?
      ensures ok ==> Parse(tokens0) == Some(pipeline) && currentCommand == None
      ensures ok ==> WellFormed(pipeline) && Alternates(pipeline)
    {
      currentCommand, pipeline := None, [];
      var tokens, state, env := tokens0, Begin, map[];
      while tokens != []
        invariant Consistent(Parser(state, currentCommand, env, pipeline))
        invariant FeedAll(START, tokens0) == FeedAll(Parser(state, currentCommand, env, pipeline), tokens)
        decreases |tokens|
      {
        var token := tokens[0];
        tokens := tokens[1..];
        ghost var before := pipeline;
        match state {
        case Begin =>
          var setting := EnvVar(token);
          if setting.Some? {
            env := env[setting.value.0 := setting.value.1];
          } else {
            assert currentCommand == None;
            if token == "cd" {
              if env != map[] {
                return false;
              }
              currentCommand, state := Some(Chdir(None)), InChdir;
            } else {
              currentCommand := Some(Command(token, [token], Inherited, Inherited, Inherited, env));
              env, state := map[], InCommand;
            }
          }
        case InCommand =>
          var c := currentCommand.value;
          if token == ">" {
            state := InStdout;
          } else if token == "2>" {
            state := InStderr;
          } else if token == "2>&1" {
            if c.stderr != Inherited {
              return false;
            }
            currentCommand := Some(c.(stderr := SameAsStdout));
          } else if token == "<" {
            state := InStdin;
          } else if token == "|" {
            if c.stdout != Inherited {
              return false;
            }
            currentCommand := Some(c.(stdout := PipeEnd));
            CommitCommand();
            pipeline, state := pipeline + [PipeOp], Begin;
          } else if token == "&&" {
            CommitCommand();
            pipeline, state := pipeline + [AndOp], Begin;
          } else if token == "||" {
            CommitCommand();
            pipeline, state := pipeline + [OrOp], Begin;
          } else {
            currentCommand := Some(c.(argv := c.argv + [token]));
          }
        case InChdir =>
          if token == "&&" {
            CommitCommand();
            pipeline, state := pipeline + [AndOp], Begin;
          } else if currentCommand.value.dir.Some? {
            return false;
          } else {
            currentCommand := Some(Chdir(Some(token)));
          }
        case InStdout =>
          if currentCommand.value.stdout != Inherited {
            return false;
          }
          currentCommand, state := Some(currentCommand.value.(stdout := File(token))), InCommand;
        case InStderr =>
          if currentCommand.value.stderr != Inherited {
            return false;
          }
          currentCommand, state := Some(currentCommand.value.(stderr := File(token))), InCommand;
        case InStdin =>
          if currentCommand.value.stdin != Inherited {
            return false;
          }
          currentCommand, state := Some(currentCommand.value.(stdin := File(token))), InCommand;
        }
        // a node and an operator committed one after the other
        assert state == Begin && |pipeline| == |before| + 2 ==> pipeline == before + [pipeline[|before|], pipeline[|before| + 1]];
      }
      if currentCommand == None {
        return false;
      }
      CommitCommand();
      ParsedIsWellFormed(tokens0);
      WellFormedAlternates(pipeline);
      return true;
    }

    /** Waits for every command in turn; the result is the last exit code as soon as one of them is not zero. */
    static method ExecPipedCommands(commands: seq<nat>, code: nat -> int) returns (retval: int, events: seq<Event>)
      requires commands != []
      ensures retval == code(Last(commands))
      ensures events == seq(|commands|, k requires 0 <= k < |commands| => Waited(commands[k]))
    {
      var retvals: seq<int> := [];
      events := [];
      for k := 0 to |commands|
        invariant |retvals| == k && forall m :: 0 <= m < k ==> retvals[m] == code(commands[m])
        invariant events == seq(k, m requires 0 <= m < k => Waited(commands[m]))
      {
        events := events + [Waited(commands[k])];
        retvals := retvals + [code(commands[k])];
      }
      retval := 0;
      for k := 0 to |retvals|
        invariant retval == 0 && forall m :: 0 <= m < k ==> retvals[m] == 0
      {
        if retvals[k] != 0 {
          retval := Last(retvals);
          break;
        }
      }
    }

    static method CloseFiles(files: seq<Target>) returns (events: seq<Event>)
      ensures events == Closes(files)
    {
      events := [];
      for k := 0 to |files|
        invariant events == Closes(files[..k])
      {
        assert files[..k + 1][..k] == files[..k];
        if files[k].Handle? {
          events := events + [Closed(files[k].id)];
        }
      }
      assert files[..|files|] == files;
    }

    static method OpenOutFile(s: Stream, l: Launched) returns (target: Target, l': Launched)
      ensures target == OutTarget(s, l) && l' == AfterOut(s, l)
    {
      if s == Inherited {
        return Default, l;
      } else if s == PipeEnd {
        return NewPipe, l;
      } else if s == SameAsStdout {
        return Merged, l;
      } else if s.name in ["NUL:", "/dev/null"] {
        return DevNull, l.(files := l.files + [DevNull]);
      } else {
        return Handle(l.next), Launched(l.events + [Opened(l.next, s.name)], l.next + 1, l.files + [Handle(l.next)]);
      }
    }

    /** Opens a command's files and starts its process, after piped, the processes of the same group. */
    static method StartCommand(cmd: Node, pos: nat, cwd: string, piping: bool, piped: seq<nat>, l: Launched) returns (l': Launched)
      requires cmd.Command?
      requires piping <==> piped != []
      ensures l' == LaunchStage(Stage(pos, cmd, cwd), if piped == [] then None else Some(Last(piped)), l)
      // the files opened come first, and the last thing is the start
      ensures l.events < l'.events
      ensures StageStart(Stage(pos, cmd, cwd), if piped == [] then None else Some(Last(piped)), l'.events[..|l'.events| - 1], Last(l'.events))
    {
      StageStreams(Stage(pos, cmd, cwd), if piped == [] then None else Some(Last(piped)), l);
      var stdin, stdout, stderr;
      l' := l;
      if piping {
        stdin := Upstream(Last(piped));
      } else if cmd.stdin.File? {
        stdin := Handle(l'.next);
        l' := Launched(l'.events + [Opened(l'.next, cmd.stdin.name)], l'.next + 1, l'.files + [stdin]);
      } else {
        stdin := Default;
      }
      stdout, l' := OpenOutFile(cmd.stdout, l');
      stderr, l' := OpenOutFile(cmd.stderr, l');
      var procCwd := if cwd == "." then None else Some(cwd);
      l' := l'.(events := l'.events + [Started(pos, cmd.argv, stdin, stdout, stderr, cmd.env, procCwd)]);
    }

    /** Waits for the group's processes, then closes its files. */
    static method FinishGroup(piped: seq<nat>, l: Launched, code: nat -> int, ghost g: Group, ghost next: nat) returns (retval: int, events: seq<Event>)
      requires g != [] && AllCommands(g)
      requires piped == Positions(g) && l == Launch(g, next)
      ensures retval == GroupStatus(g, code)
      ensures events == GroupEvents(g, next)
    {
      var waits, closes;
      retval, waits := ExecPipedCommands(piped, code);
      closes := CloseFiles(l.files);
      assert waits == Waits(g);
      events := l.events + (waits + closes);
    }

    /** code gives the exit code of the command at each position of the pipeline; opening files and starting processes succeeds. */
    method Run(code: nat -> int) returns (r: Outcome, events: seq<Event>)
      requires pipeline == [] || Alternates(pipeline)
      ensures pipeline == [] ==> r == NoStatus && events == []
      // the run is that of the chain of groups
      ensures pipeline != [] ==>
                var c := ReadChain(pipeline, 0, ".", []);
                Sound(c) && r == Eval(c, code) && events == Events(c, code, 0)
      // it gets to the end unless it meets a change of directory it cannot perform
      ensures pipeline != [] && Runnable(pipeline) ==> r.Status?
      // then every process started has been waited for and every file opened has been closed, each once
      ensures r.Status? ==> AllWaited(events) && Increasing(Ids(events, Start))
      ensures r.Status? ==> exists n :: AllClosed(events, 0, n)
      // a run that raises leaves behind what it has started in the group it raises in, and nothing else
      ensures pipeline != [] ==>
                var left := Abandoned(ReadChain(pipeline, 0, ".", []), code);
                (left != [] ==> r == Raised) && AllWaitedBut(events, Positions(left)) && (AllWaited(events) <==> left == [])
      // and a process that reads from a pipe has one that writes to it
      ensures Connected(events)
      // told from the nodes and the exit codes: these commands are started, with what their nodes say and where the changes
      // of directory before them lead, one group after another
      ensures pipeline != [] ==> Ids(events, Start) == StartedFrom(pipeline, 0, code)
      ensures Written(pipeline, events) && Sequential(events)
    {
      if pipeline == [] {
        return NoStatus, [];
      }
      r, events := Execute(pipeline, code);
      RunFacts(pipeline, code);
      RunToldFromNodes(pipeline, code);
    }

    /** The runner's loop over its copy of the pipeline. */
    static method Execute(nodes: seq<Node>, code: nat -> int) returns (r: Outcome, events: seq<Event>)
      requires Alternates(nodes)
      ensures var c := ReadChain(nodes, 0, ".", []); Sound(c) && r == Eval(c, code) && events == Events(c, code, 0)
    {
      events := [];
      var i, cwd, piping := 0, ".", false;
      var piped: seq<nat> := [];
      var l := Launched([], 0, []);
      ghost var stages: Group, start := [], 0;
      ghost var whole := ReadChain(nodes, 0, ".", []);
      ReadChainSound(nodes, 0, ".", []);
      while i < |nodes|
        invariant 0 <= i < |nodes| && i % 2 == 0
        invariant Underway(whole, ReadChain(nodes, i, cwd, stages), code, events, start)
        invariant AllCommands(stages)
        invariant l == Launch(stages, start)
        invariant piped == Positions(stages) && (piping <==> piped != [])
        decreases |nodes| - i
      {
        ghost var cur := ReadChain(nodes, i, cwd, stages);
        OperandAt(nodes, i);
        var pos, node := i, nodes[i];
        i := i + 1;
        if node.Chdir? {
          if i == |nodes| {
            return Raised, events + l.events;
          }
          assert nodes[i].AndOp?;
          i := i + 1;
          if node.dir.None? {
            return Raised, events + l.events;
          }
          cwd := JoinPath(cwd, node.dir.value);
          continue;
        }
        assert node.Command?;
        l, piped, stages := StartInGroup(node, pos, cwd, piping, piped, l, stages, start);
        if i == |nodes| {
          assert cur == Final(stages);
          GroupDecides(whole, cur, code, events, start);
          var retval, group := FinishGroup(piped, l, code, stages, start);
          return Status(retval), events + group;
        }
        var nextNode := nodes[i];
        i := i + 1;
        if nextNode.PipeOp? {
          piping := true;
        } else {
          var stop, retval;
          stop, retval, events := EndGroup(nextNode, piped, l, code, stages, start, events, whole, cur);
          if stop {
            return Status(retval), events;
          }
          start := l.next;
          piping, piped, stages, l := false, [], [], Launched([], l.next, []);
        }
      }
    }

    /** What && or || does with the group before it: it stops the run, or lets it go on with the rest. */
    static method EndGroup(op: Node, piped: seq<nat>, l: Launched, code: nat -> int, ghost g: Group, ghost next: nat,
                           events0: seq<Event>, ghost whole: Chain, ghost cur: Chain)
      returns (stop: bool, retval: int, events: seq<Event>)
      requires g != [] && AllCommands(g) && piped == Positions(g) && l == Launch(g, next)
      requires Underway(whole, cur, code, events0, next)
      requires (op.AndOp? && cur.AndThen?) || (op.OrOp? && cur.OrElse?)
      requires cur.group == g
      ensures stop ==> Eval(whole, code) == Status(retval) && Events(whole, code, 0) == events
      ensures !stop ==> Underway(whole, cur.rest, code, events, l.next)
    {
      var group;
      retval, group := FinishGroup(piped, l, code, g, next);
      events := events0 + group;
      stop := (op.OrOp? && retval == 0) || (op.AndOp? && retval != 0);
      if stop {
        GroupDecides(whole, cur, code, events0, next);
      } else {
        GroupPassed(whole, cur, code, events0, next);
      }
    }

    /** StartCommand for the next command of a group. */
    static method StartInGroup(node: Node, pos: nat, cwd: string, piping: bool, piped: seq<nat>, l: Launched, ghost g: Group, ghost next: nat)
      returns (l': Launched, piped': seq<nat>, ghost g': Group)
      requires node.Command? && AllCommands(g)
      requires l == Launch(g, next) && piped == Positions(g) && (piping <==> piped != [])
      ensures g' == g + [Stage(pos, node, cwd)]
      ensures AllCommands(g')
      ensures l' == Launch(g', next) && piped' == Positions(g')
    {
      l' := StartCommand(node, pos, cwd, piping, piped, l);
      g' := g + [Stage(pos, node, cwd)];
      LaunchGrows(g, Stage(pos, node, cwd), |g|, next);
      piped' := piped + [pos];
    }
  }

  lemma RunToldFromNodes(nodes: seq<Node>, code: nat -> int)
    requires Alternates(nodes)
    ensures Sound(ReadChain(nodes, 0, ".", []))
    ensures var t := Events(ReadChain(nodes, 0, ".", []), code, 0);
            Ids(t, Start) == StartedFrom(nodes, 0, code) && Written(nodes, t) && Sequential(t)
  {
    var c := ReadChain(nodes, 0, ".", []);
    StartsAre(nodes, 0, ".", [], code, 0);
    assert Positions([]) + StartedFrom(nodes, 0, code) == StartedFrom(nodes, 0, code);
    WholeChainOf(nodes);
    RunWritten(nodes, c, code, 0);
    ReadChainProper(nodes, 0, ".", [], 0);
    RunSequential(c, code, 0, 0);
  }

  lemma RunFacts(nodes: seq<Node>, code: nat -> int)
    requires Alternates(nodes)
    ensures var c := ReadChain(nodes, 0, ".", []);
            && Sound(c)
            && Connected(Events(c, code, 0))
            && (Runnable(nodes) ==> Eval(c, code).Status?)
            && AllWaitedBut(Events(c, code, 0), Positions(Abandoned(c, code)))
            && (Abandoned(c, code) != [] ==> Eval(c, code) == Raised)
            && (AllWaited(Events(c, code, 0)) <==> Abandoned(c, code) == [])
            && (Eval(c, code).Status? ==>
                  AllWaited(Events(c, code, 0)) && Increasing(Ids(Events(c, code, 0), Start)) && exists n :: AllClosed(Events(c, code, 0), 0, n))
  {
    var c := ReadChain(nodes, 0, ".", []);
    ReadChainProper(nodes, 0, ".", [], 0);
    ProperSound(c, 0);
    RunConnected(c, code, 0, 0);
    RunLeaves(c, code, 0);
    WaitedIffNoneAbandoned(c, code, 0);
    if Runnable(nodes) {
      RunnableIntact(nodes, 0, ".", []);
      IntactStatus(c, code);
    }
    if Eval(c, code).Status? {
      var end := RunBalanced(c, code, 0);
      assert AllClosed(Events(c, code, 0), 0, end);
      RunStartsOnce(c, code, 0, 0);
    }
  }

  /** The run so far has produced done; the rest of it is the run of cur. */
  ghost predicate Underway(whole: Chain, cur: Chain, code: nat -> int, done: seq<Event>, next: nat) {
    && Sound(whole) && Sound(cur)
    && Eval(whole, code) == Eval(cur, code)
    && Events(whole, code, 0) == done + Events(cur, code, next)
  }

  /** The current group lets the run go on. */
  predicate GoesOn(c: Chain, code: nat -> int)
    requires Sound(c)
  {
    (c.AndThen? && GroupStatus(c.group, code) == 0) || (c.OrElse? && GroupStatus(c.group, code) != 0)
  }

  lemma GroupPassed(whole: Chain, cur: Chain, code: nat -> int, done: seq<Event>, next: nat)
    requires Underway(whole, cur, code, done, next)
    requires GoesOn(cur, code)
    ensures Underway(whole, cur.rest, code, done + GroupEvents(cur.group, next), Launch(cur.group, next).next)
  {
    var mine, others := GroupEvents(cur.group, next), Events(cur.rest, code, Launch(cur.group, next).next);
    assert done + (mine + others) == done + mine + others;
  }

  lemma GroupDecides(whole: Chain, cur: Chain, code: nat -> int, done: seq<Event>, next: nat)
    requires Underway(whole, cur, code, done, next)
    requires !cur.Broken? && !GoesOn(cur, code)
    ensures Eval(whole, code) == Status(GroupStatus(cur.group, code))
    ensures Events(whole, code, 0) == done + GroupEvents(cur.group, next)
  {
  }

  /** a | cd d: the runner has started a when it raises, and never waits for it. */
  lemma PipeIntoChdir(nodes: seq<Node>, code: nat -> int)
    requires nodes == [Command("a", ["a"], Inherited, PipeEnd, Inherited, map[]), PipeOp, Chdir(Some("d"))]
    ensures exists tokens :: Parse(tokens) == Some(nodes)
    ensures Alternates(nodes) && PipedAway(nodes)
    ensures var c := ReadChain(nodes, 0, ".", []);
            && Sound(c) && Eval(c, code) == Raised
            && Ids(Events(c, code, 0), Start) == [0] && Ids(Events(c, code, 0), Wait) == []
  {
    assert IsCommand(nodes[0]);
    assert WellFormed(nodes);
    ParsePrint(nodes);
    WellFormedAlternates(nodes);
    var c, a := ReadChain(nodes, 0, ".", []), Stage(0, nodes[0], ".");
    assert ReadChain(nodes, 2, ".", [a]) == Broken([a]);
    StrandedIffPipedAway(nodes);
    assert c == Broken([a]);
    LaunchTracks([a], 0);
    var ids := Ids(Events(c, code, 0), Start);
    assert PositionsOf(ids, [a], 1) && ids == [ids[0]];
  }
}
