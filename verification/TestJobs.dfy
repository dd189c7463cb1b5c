// The test runner's parallel job protocol.
module TestJobs {
  import opened Sequences

  /** id numbers the jobs in the order they are put into the input queue; a break job told to a worker is its sentinel, one coming back was interrupted. */
  datatype Job = Job(id: nat, isSkip: bool, isBreak: bool, returncode: int)

  /** The tests to dispatch, the number of processors, and the exit code each job's process would have. */
  datatype Config = Config(suite: seq<Job>, processors: nat, code: nat -> int)

  datatype Worker =
    | Ready
    | Holding(job: Job)
    | Launched(job: Job)
    | Reporting(job: Job)
    | Exited(job: Job)

  datatype Main =
    | Dispatching(put: nat)
    | Stopping(sent: nat)
    | Collecting
    | Joining(joined: nat)
    | Finished(result: int)

  datatype Tally = Tally(passed: nat, failed: nat, valgrind: nat, crashed: nat, skipped: nat)

  /** collected records what main has taken from the output queue. */
  datatype State = State(main: Main, input: seq<Job>, workers: seq<Worker>, output: seq<Job>, collected: seq<Job>, tally: Tally, interrupted: bool)

  datatype Action = MainStep | WorkerStep(w: nat) | Interrupt

  predicate ValidConfig(c: Config) {
    && c.processors >= 1
    && forall i :: 0 <= i < |c.suite| ==> c.suite[i].id == i && !c.suite[i].isBreak
  }

  function Init(c: Config): State {
    State(Dispatching(0), [], seq(c.processors, _ => Ready), [], [], Tally(0, 0, 0, 0, 0), false)
  }

  function Sentinel(c: Config, k: nat): Job {
    Job(|c.suite| + k, false, true, 0)
  }

  // ----- the steps

  datatype Verdict = Break | Skip | Pass | Fail | Valgrind | Crash

  function VerdictOf(j: Job): Verdict {
    if j.isBreak then Break
    else if j.isSkip then Skip
    else if j.returncode == 0 then Pass
    else if j.returncode == 1 then Fail
    else if j.returncode == 2 then Valgrind
    else Crash
  }

  function Record(t: Tally, v: Verdict): Tally {
    match v
    case Break => t
    case Skip => t.(skipped := t.skipped + 1)
    case Pass => t.(passed := t.passed + 1)
    case Fail => t.(failed := t.failed + 1)
    case Valgrind => t.(valgrind := t.valgrind + 1)
    case Crash => t.(crashed := t.crashed + 1)
  }

  /** get blocks on an empty queue, join on a running thread. */
  predicate Enabled(c: Config, s: State, a: Action) {
    match a
    case MainStep =>
      (match s.main
       case Dispatching(_) => true
       case Stopping(_) => true
       case Collecting => |s.collected| < |c.suite| ==> s.output != []
       case Joining(k) => k < |s.workers| ==> s.workers[k].Exited?
       case Finished(_) => false)
    case WorkerStep(w) => w < |s.workers| && !s.workers[w].Exited? && (s.workers[w].Ready? ==> s.input != [])
    case Interrupt => !s.interrupted
  }

  function DoMain(c: Config, s: State): State
    requires Enabled(c, s, MainStep)
  {
    match s.main
    case Dispatching(n) =>
      if n < |c.suite| then s.(main := Dispatching(n + 1), input := s.input + [c.suite[n]]) else s.(main := Stopping(0))
    case Stopping(k) =>
      if k < c.processors then s.(main := Stopping(k + 1), input := s.input + [Sentinel(c, k)]) else s.(main := Collecting)
    case Collecting =>
      if |s.collected| < |c.suite| then
        var job := s.output[0];
        s.(output := s.output[1..], collected := s.collected + [job], tally := Record(s.tally, VerdictOf(job)))
      else s.(main := Joining(0))
    case Joining(k) =>
      if k < |s.workers| then s.(main := Joining(k + 1))
      else s.(main := Finished(if s.tally.passed + s.tally.skipped == |c.suite| then 0 else 1))
  }

  function DoWorker(c: Config, s: State, w: nat): State
    requires Enabled(c, s, WorkerStep(w))
  {
    match s.workers[w]
    case Ready => s.(input := s.input[1..], workers := s.workers[w := Holding(s.input[0])])
    case Holding(job) =>
      if job.isBreak then s.(workers := s.workers[w := Exited(job)])
      else if s.interrupted then s.(workers := s.workers[w := Reporting(job.(isBreak := true))])
      else if job.isSkip then s.(workers := s.workers[w := Reporting(job)])
      else s.(workers := s.workers[w := Launched(job)])
    case Launched(job) => s.(workers := s.workers[w := Reporting(job.(returncode := c.code(job.id)))])
    case Reporting(job) => s.(workers := s.workers[w := Ready], output := s.output + [job])
    case Exited(_) => s
  }

  function Do(c: Config, s: State, a: Action): State
    requires Enabled(c, s, a)
  {
    match a
    case MainStep => DoMain(c, s)
    case WorkerStep(w) => DoWorker(c, s, w)
    case Interrupt => s.(interrupted := true)
  }

  // ----- counting the places of an item

  function HeldBy(w: Worker, y: nat): nat {
    if !w.Ready? && w.job.id == y then 1 else 0
  }

  /** How many of the first n workers have item y in their hands. */
  function HeldCount(ws: seq<Worker>, n: nat, y: nat): nat
    requires n <= |ws|
  {
    if n == 0 then 0 else HeldCount(ws, n - 1, y) + HeldBy(ws[n - 1], y)
  }

  /** How often item y occurs among the first n of js. */
  function Count(js: seq<Job>, n: nat, y: nat): nat
    requires n <= |js|
  {
    if n == 0 then 0 else Count(js, n - 1, y) + if js[n - 1].id == y then 1 else 0
  }

  /** In how many places item y is, once it has been taken from the input queue. */
  function Places(ws: seq<Worker>, output: seq<Job>, collected: seq<Job>, y: nat): nat {
    HeldCount(ws, |ws|, y) + Count(output, |output|, y) + Count(collected, |collected|, y)
  }

  /** Everything taken from the input queue is in exactly one place: with a worker, in the output queue, or collected. */
  ghost predicate Conserved(ws: seq<Worker>, output: seq<Job>, collected: seq<Job>, taken: nat) {
    forall y: nat :: Places(ws, output, collected, y) == if y < taken then 1 else 0
  }

  lemma {:induction false} CountAppend(js: seq<Job>, j: Job, n: nat, y: nat)
    requires n <= |js|
    ensures Count(js + [j], n, y) == Count(js, n, y)
  {
    if n > 0 {
      CountAppend(js, j, n - 1, y);
    }
  }

  lemma {:induction false} CountTail(js: seq<Job>, n: nat, y: nat)
    requires 0 < n <= |js|
    ensures Count(js, n, y) == Count(js[1..], n - 1, y) + if js[0].id == y then 1 else 0
  {
    if n > 1 {
      CountTail(js, n - 1, y);
    }
  }

  lemma {:induction false} CountMember(js: seq<Job>, n: nat, y: nat)
    requires n <= |js|
    ensures Count(js, n, y) > 0 <==> exists k :: 0 <= k < n && js[k].id == y
  {
    if n > 0 {
      CountMember(js, n - 1, y);
    }
  }

  lemma {:induction false} HeldUpdate(ws: seq<Worker>, w: nat, ws': seq<Worker>, n: nat, y: nat)
    requires w < |ws| == |ws'| && n <= |ws|
    requires forall k :: 0 <= k < |ws| && k != w ==> ws'[k] == ws[k]
    ensures HeldCount(ws', n, y) + (if w < n then HeldBy(ws[w], y) else 0) == HeldCount(ws, n, y) + if w < n then HeldBy(ws'[w], y) else 0
  {
    if n > 0 {
      HeldUpdate(ws, w, ws', n - 1, y);
    }
  }

  lemma {:induction false} HeldMember(ws: seq<Worker>, n: nat, y: nat)
    requires n <= |ws|
    ensures HeldCount(ws, n, y) > 0 <==> exists w :: 0 <= w < n && !ws[w].Ready? && ws[w].job.id == y
  {
    if n > 0 {
      HeldMember(ws, n - 1, y);
    }
  }

  // ----- the invariant

  /** What has been put into the input queue so far. */
  function Put(c: Config, s: State): nat {
    match s.main
    case Dispatching(n) => n
    case Stopping(k) => |c.suite| + k
    case _ => |c.suite| + c.processors
  }

  /** The item put as number n. */
  function Item(c: Config, n: nat): Job {
    if n < |c.suite| then c.suite[n] else Sentinel(c, n - |c.suite|)
  }

  /** What has been taken from the input queue so far. */
  function Taken(c: Config, s: State): int {
    Put(c, s) - |s.input|
  }

  /** A job on its way back: the one dispatched, either marked as a break because of an interrupt, or skipped, or run. */
  predicate Returned(c: Config, j: Job, interrupted: bool) {
    && j.id < |c.suite|
    && (j.isBreak ==> interrupted)
    && (!j.isBreak ==> j == Expected(c, j.id))
  }

  /** How a job comes back when nothing interrupts it. */
  function Expected(c: Config, id: nat): Job
    requires id < |c.suite|
  {
    var job := c.suite[id];
    if job.isSkip then job else job.(returncode := c.code(id))
  }

  predicate WorkerOk(c: Config, w: Worker, taken: nat, interrupted: bool) {
    match w
    case Ready => true
    case Holding(job) => job.id < taken && job == Item(c, job.id)
    case Launched(job) => job.id < |c.suite| && job == c.suite[job.id] && !job.isSkip
    case Reporting(job) => Returned(c, job, interrupted)
    case Exited(job) => job.id >= |c.suite|
  }

  predicate MainOk(c: Config, s: State) {
    match s.main
    case Dispatching(n) => n <= |c.suite| && s.collected == []
    case Stopping(k) => k <= c.processors && s.collected == []
    case Collecting => |s.collected| <= |c.suite|
    case Joining(k) => |s.collected| == |c.suite| && k <= |s.workers| && forall w :: 0 <= w < k ==> s.workers[w].Exited?
    case Finished(result) =>
      && |s.collected| == |c.suite| && (forall w :: 0 <= w < |s.workers| ==> s.workers[w].Exited?)
      && result == if s.tally.passed + s.tally.skipped == |c.suite| then 0 else 1
  }

  ghost predicate Inv(c: Config, s: State) {
    && |s.workers| == c.processors
    && MainOk(c, s)
    // the input queue is first in, first out
    && Taken(c, s) >= 0
    && (forall k :: 0 <= k < |s.input| ==> s.input[k] == Item(c, Taken(c, s) + k))
    && Conserved(s.workers, s.output, s.collected, Taken(c, s))
    && (forall w :: 0 <= w < |s.workers| ==> WorkerOk(c, s.workers[w], Taken(c, s), s.interrupted))
    && (forall k :: 0 <= k < |s.output| ==> Returned(c, s.output[k], s.interrupted))
    && (forall k :: 0 <= k < |s.collected| ==> Returned(c, s.collected[k], s.interrupted))
    && s.tally == Tallied(s.collected, |s.collected|)
  }

  /** The summary counts for the first n jobs collected. */
  function Tallied(js: seq<Job>, n: nat): Tally
    requires n <= |js|
  {
    if n == 0 then Tally(0, 0, 0, 0, 0) else Record(Tallied(js, n - 1), VerdictOf(js[n - 1]))
  }

  lemma {:induction false} TalliedPrefix(js: seq<Job>, j: Job, n: nat)
    requires n <= |js|
    ensures Tallied(js + [j], n) == Tallied(js, n)
  {
    if n > 0 {
      TalliedPrefix(js, j, n - 1);
    }
  }

  lemma {:induction false} AllReady(c: Config, n: nat, y: nat)
    requires n <= c.processors
    ensures HeldCount(Init(c).workers, n, y) == 0
  {
    if n > 0 {
      AllReady(c, n - 1, y);
    }
  }

  lemma InitInv(c: Config)
    requires ValidConfig(c)
    ensures Inv(c, Init(c))
  {
    forall y: nat ensures Places(Init(c).workers, [], [], y) == 0 {
      AllReady(c, c.processors, y);
    }
  }

  lemma CollectConserves(ws: seq<Worker>, output: seq<Job>, collected: seq<Job>, taken: nat)
    requires Conserved(ws, output, collected, taken) && output != []
    ensures Conserved(ws, output[1..], collected + [output[0]], taken)
  {
    forall y: nat ensures Places(ws, output[1..], collected + [output[0]], y) == if y < taken then 1 else 0 {
      assert Places(ws, output, collected, y) == if y < taken then 1 else 0;
      CountTail(output, |output|, y);
      CountAppend(collected, output[0], |collected|, y);
    }
  }

  lemma GetConserves(ws: seq<Worker>, w: nat, job: Job, output: seq<Job>, collected: seq<Job>, taken: nat)
    requires Conserved(ws, output, collected, taken)
    requires w < |ws| && ws[w].Ready? && job.id == taken
    ensures Conserved(ws[w := Holding(job)], output, collected, taken + 1)
  {
    var ws' := ws[w := Holding(job)];
    forall y: nat ensures Places(ws', output, collected, y) == if y < taken + 1 then 1 else 0 {
      assert Places(ws, output, collected, y) == if y < taken then 1 else 0;
      HeldUpdate(ws, w, ws', |ws|, y);
    }
  }

  lemma WorkConserves(ws: seq<Worker>, w: nat, x: Worker, output: seq<Job>, collected: seq<Job>, taken: nat)
    requires Conserved(ws, output, collected, taken)
    requires w < |ws| && !ws[w].Ready? && !x.Ready? && x.job.id == ws[w].job.id
    ensures Conserved(ws[w := x], output, collected, taken)
  {
    var ws' := ws[w := x];
    forall y: nat ensures Places(ws', output, collected, y) == if y < taken then 1 else 0 {
      assert Places(ws, output, collected, y) == if y < taken then 1 else 0;
      HeldUpdate(ws, w, ws', |ws|, y);
    }
  }

  lemma PutConserves(ws: seq<Worker>, w: nat, output: seq<Job>, collected: seq<Job>, taken: nat)
    requires Conserved(ws, output, collected, taken)
    requires w < |ws| && !ws[w].Ready?
    ensures Conserved(ws[w := Ready], output + [ws[w].job], collected, taken)
  {
    var ws', output' := ws[w := Ready], output + [ws[w].job];
    forall y: nat ensures Places(ws', output', collected, y) == if y < taken then 1 else 0 {
      assert Places(ws, output, collected, y) == if y < taken then 1 else 0;
      HeldUpdate(ws, w, ws', |ws|, y);
      CountAppend(output, ws[w].job, |output|, y);
    }
  }

  lemma CollectKeepsInv(c: Config, s: State)
    requires ValidConfig(c) && Inv(c, s)
    requires s.main.Collecting? && |s.collected| < |c.suite| && s.output != []
    ensures Inv(c, DoMain(c, s))
  {
    CollectConserves(s.workers, s.output, s.collected, Taken(c, s));
    TalliedPrefix(s.collected, s.output[0], |s.collected|);
  }

  lemma QueueKeepsInv(c: Config, s: State)
    requires ValidConfig(c) && Inv(c, s)
    requires s.main.Dispatching? || s.main.Stopping?
    ensures Inv(c, DoMain(c, s))
  {
    assert Taken(c, DoMain(c, s)) == Taken(c, s);
  }

  lemma JoinKeepsInv(c: Config, s: State)
    requires ValidConfig(c) && Inv(c, s) && Enabled(c, s, MainStep)
    requires (s.main.Collecting? && |s.collected| == |c.suite|) || s.main.Joining?
    ensures Inv(c, DoMain(c, s))
  {
    assert Taken(c, DoMain(c, s)) == Taken(c, s);
  }

  lemma MainKeepsInv(c: Config, s: State)
    requires ValidConfig(c) && Inv(c, s) && Enabled(c, s, MainStep)
    ensures Inv(c, DoMain(c, s))
  {
    if s.main.Dispatching? || s.main.Stopping? {
      QueueKeepsInv(c, s);
    } else if s.main.Collecting? && |s.collected| < |c.suite| {
      CollectKeepsInv(c, s);
    } else {
      JoinKeepsInv(c, s);
    }
  }

  lemma GetKeepsInv(c: Config, s: State, w: nat)
    requires ValidConfig(c) && Inv(c, s)
    requires w < |s.workers| && s.workers[w].Ready? && s.input != []
    ensures Inv(c, DoWorker(c, s, w))
  {
    var taken, job := Taken(c, s), s.input[0];
    assert job == Item(c, taken + 0);
    GetConserves(s.workers, w, job, s.output, s.collected, taken);
    var ws' := s.workers[w := Holding(job)];
    forall k | 0 <= k < |ws'| ensures WorkerOk(c, ws'[k], taken + 1, s.interrupted) {
      assert k != w ==> WorkerOk(c, s.workers[k], taken, s.interrupted);
    }
    forall k | 0 <= k < |s.input| - 1 ensures s.input[1..][k] == Item(c, taken + 1 + k) {
      assert s.input[k + 1] == Item(c, taken + (k + 1));
    }
  }

  lemma WorkKeepsInv(c: Config, s: State, w: nat, x: Worker)
    requires ValidConfig(c) && Inv(c, s)
    requires w < |s.workers| && !s.workers[w].Ready? && !s.workers[w].Exited?
    requires !x.Ready? && x.job.id == s.workers[w].job.id && WorkerOk(c, x, Taken(c, s), s.interrupted)
    ensures Inv(c, s.(workers := s.workers[w := x]))
  {
    WorkConserves(s.workers, w, x, s.output, s.collected, Taken(c, s));
  }

  lemma PutKeepsInv(c: Config, s: State, w: nat)
    requires ValidConfig(c) && Inv(c, s)
    requires w < |s.workers| && s.workers[w].Reporting?
    ensures Inv(c, DoWorker(c, s, w))
  {
    PutConserves(s.workers, w, s.output, s.collected, Taken(c, s));
    assert WorkerOk(c, s.workers[w], Taken(c, s), s.interrupted);
  }

  lemma WorkerKeepsInv(c: Config, s: State, w: nat)
    requires ValidConfig(c) && Inv(c, s) && Enabled(c, s, WorkerStep(w))
    ensures Inv(c, DoWorker(c, s, w))
  {
    assert WorkerOk(c, s.workers[w], Taken(c, s), s.interrupted);
    match s.workers[w]
    case Ready => GetKeepsInv(c, s, w);
    case Reporting(job) => PutKeepsInv(c, s, w);
    case Holding(job) => WorkKeepsInv(c, s, w, DoWorker(c, s, w).workers[w]);
    case Launched(job) => WorkKeepsInv(c, s, w, Reporting(job.(returncode := c.code(job.id))));
  }

  lemma StepKeepsInv(c: Config, s: State, a: Action)
    requires ValidConfig(c) && Inv(c, s) && Enabled(c, s, a)
    ensures Inv(c, Do(c, s, a))
  {
    match a
    case MainStep => MainKeepsInv(c, s);
    case WorkerStep(w) => WorkerKeepsInv(c, s, w);
    case Interrupt =>
  }

  // ----- no sentinel before a job, and no deadlock

  /** While a worker has a sentinel in its hands or has left because of one, no job is waiting in the input queue. */
  lemma SentinelsComeLast(c: Config, s: State, w: nat, k: nat)
    requires ValidConfig(c) && Inv(c, s)
    requires w < |s.workers| && k < |s.input|
    requires s.workers[w].Exited? || (s.workers[w].Holding? && s.workers[w].job.isBreak)
    ensures s.input[k].isBreak && |c.suite| <= s.input[k].id
  {
    var id := s.workers[w].job.id;
    assert WorkerOk(c, s.workers[w], Taken(c, s), s.interrupted);
    HeldMember(s.workers, |s.workers|, id);
    assert Places(s.workers, s.output, s.collected, id) == if id < Taken(c, s) then 1 else 0;
    assert s.input[k] == Item(c, Taken(c, s) + k);
  }

  lemma {:induction false} IdsSize(js: seq<Job>, n: nat)
    requires n <= |js|
    ensures |set k | 0 <= k < n :: js[k].id| <= n
  {
    if n > 0 {
      IdsSize(js, n - 1);
      assert (set k | 0 <= k < n :: js[k].id) == (set k | 0 <= k < n - 1 :: js[k].id) + {js[n - 1].id};
    }
  }

  /** A list that has every number below m among its ids is at least that long. */
  lemma CoverSize(js: seq<Job>, m: nat)
    requires forall y: nat :: y < m ==> Count(js, |js|, y) > 0
    ensures m <= |js|
  {
    var ids := set k | 0 <= k < |js| :: js[k].id;
    IntervalSize(0, m);
    forall y | y in Interval(0, m) ensures y in ids {
      CountMember(js, |js|, y);
    }
    IdsSize(js, |js|);
    SubsetSize(Interval(0, m), ids);
  }

  ghost function HeldIds(ws: seq<Worker>, n: nat): set<nat>
    requires n <= |ws|
  {
    set k | 0 <= k < n && !ws[k].Ready? :: ws[k].job.id
  }

  lemma {:induction false} HeldIdsSize(ws: seq<Worker>, w: nat, n: nat)
    requires n <= |ws| && w < |ws| && ws[w].Ready?
    ensures |HeldIds(ws, n)| <= if w < n then n - 1 else n
  {
    if n > 0 {
      HeldIdsSize(ws, w, n - 1);
      if ws[n - 1].Ready? {
        assert HeldIds(ws, n) == HeldIds(ws, n - 1);
      } else {
        assert HeldIds(ws, n) == HeldIds(ws, n - 1) + {ws[n - 1].job.id};
      }
    }
  }

  predicate Active(w: Worker) {
    w.Holding? || w.Launched? || w.Reporting?
  }

  /** When no worker is active, all jobs that have been taken are in the output queue or collected. */
  lemma IdleWorkersHoldNoJob(c: Config, s: State, y: nat)
    requires ValidConfig(c) && Inv(c, s)
    requires forall w :: 0 <= w < |s.workers| ==> !Active(s.workers[w])
    requires y < |c.suite|
    ensures HeldCount(s.workers, |s.workers|, y) == 0
  {
    HeldMember(s.workers, |s.workers|, y);
    forall w | 0 <= w < |s.workers| && !s.workers[w].Ready? ensures s.workers[w].job.id != y {
      assert WorkerOk(c, s.workers[w], Taken(c, s), s.interrupted);
    }
  }

  /** While main waits for results that are not there yet, some worker can move. */
  lemma CollectingProgress(c: Config, s: State) returns (w: nat)
    requires ValidConfig(c) && Inv(c, s)
    requires s.main.Collecting? && |s.collected| < |c.suite| && s.output == []
    ensures Enabled(c, s, WorkerStep(w))
  {
    if v :| 0 <= v < |s.workers| && Active(s.workers[v]) {
      return v;
    }
    var taken := Taken(c, s);
    var m := if taken < |c.suite| then taken else |c.suite|;
    forall y: nat | y < m ensures Count(s.collected, |s.collected|, y) > 0 {
      IdleWorkersHoldNoJob(c, s, y);
      assert Places(s.workers, s.output, s.collected, y) == 1;
    }
    CoverSize(s.collected, m);
    assert taken < |c.suite| && s.input != [];
    assert s.input[0] == Item(c, taken + 0);
    w := 0;
    if s.workers[0].Exited? {
      SentinelsComeLast(c, s, 0, 0);
    }
  }

  /** While main waits for a worker to exit, that worker can move. */
  lemma JoiningProgress(c: Config, s: State)
    requires ValidConfig(c) && Inv(c, s)
    requires s.main.Joining? && s.main.joined < |s.workers| && !s.workers[s.main.joined].Exited?
    ensures Enabled(c, s, WorkerStep(s.main.joined))
  {
    var w := s.main.joined;
    if s.workers[w].Ready? && s.input == [] {
      var sentinels := Interval(|c.suite|, c.processors);
      IntervalSize(|c.suite|, c.processors);
      forall y | y in sentinels ensures y in HeldIds(s.workers, |s.workers|) {
        SentinelHeld(c, s, y);
      }
      HeldIdsSize(s.workers, w, |s.workers|);
      SubsetSize(sentinels, HeldIds(s.workers, |s.workers|));
      assert false;
    }
  }

  /** A sentinel that has been taken is with a worker. */
  lemma SentinelHeld(c: Config, s: State, y: nat)
    requires ValidConfig(c) && Inv(c, s)
    requires |c.suite| <= y < Taken(c, s)
    ensures y in HeldIds(s.workers, |s.workers|)
  {
    assert Places(s.workers, s.output, s.collected, y) == 1;
    CountMember(s.output, |s.output|, y);
    CountMember(s.collected, |s.collected|, y);
    HeldMember(s.workers, |s.workers|, y);
  }

  /** Whatever has happened, some thread can go on until main has finished. */
  lemma NoDeadlock(c: Config, s: State)
    requires ValidConfig(c) && Inv(c, s) && !s.main.Finished?
    ensures exists a :: a != Interrupt && Enabled(c, s, a)
  {
    if Enabled(c, s, MainStep) {
    } else if s.main.Collecting? {
      var w := CollectingProgress(c, s);
      assert WorkerStep(w) != Interrupt;
    } else {
      JoiningProgress(c, s);
      assert WorkerStep(s.main.joined) != Interrupt;
    }
  }

  // ----- every run ends

  function WorkerWeight(w: Worker): nat {
    match w
    case Holding(_) => 4
    case Launched(_) => 3
    case Reporting(_) => 2
    case _ => 0
  }

  function WorkersWeight(ws: seq<Worker>, n: nat): nat
    requires n <= |ws|
  {
    if n == 0 then 0 else WorkersWeight(ws, n - 1) + WorkerWeight(ws[n - 1])
  }

  lemma {:induction false} WeightUpdate(ws: seq<Worker>, w: nat, x: Worker, n: nat)
    requires w < |ws| && n <= |ws|
    ensures WorkersWeight(ws[w := x], n) + (if w < n then WorkerWeight(ws[w]) else 0)
         == WorkersWeight(ws, n) + if w < n then WorkerWeight(x) else 0
  {
    if n > 0 {
      WeightUpdate(ws, w, x, n - 1);
    }
  }

  /** What main still has to do besides putting and collecting. */
  function MainWeight(c: Config, s: State): int {
    match s.main
    case Dispatching(_) => c.processors + 5
    case Stopping(_) => c.processors + 4
    case Collecting => c.processors + 3
    case Joining(k) => c.processors - k + 1
    case Finished(_) => 0
  }

  /** An upper bound on the steps still possible. */
  function Remaining(c: Config, s: State): int {
    6 * (|c.suite| + c.processors - Put(c, s)) + 5 * |s.input| + WorkersWeight(s.workers, |s.workers|) + |s.output|
    + MainWeight(c, s) + if s.interrupted then 0 else 1
  }

  lemma MainDecreases(c: Config, s: State)
    requires ValidConfig(c) && Inv(c, s) && Enabled(c, s, MainStep)
    ensures Remaining(c, DoMain(c, s)) < Remaining(c, s)
  {
  }

  lemma WorkerDecreases(c: Config, s: State, w: nat)
    requires ValidConfig(c) && Enabled(c, s, WorkerStep(w))
    ensures Remaining(c, DoWorker(c, s, w)) < Remaining(c, s)
  {
    WeightUpdate(s.workers, w, DoWorker(c, s, w).workers[w], |s.workers|);
  }

  lemma StepDecreases(c: Config, s: State, a: Action)
    requires ValidConfig(c) && Inv(c, s) && Enabled(c, s, a)
    ensures Remaining(c, Do(c, s, a)) < Remaining(c, s)
  {
    match a
    case MainStep => MainDecreases(c, s);
    case WorkerStep(w) => WorkerDecreases(c, s, w);
    case Interrupt =>
  }

  /** states is what the actions lead through, from the start. */
  ghost predicate Run(c: Config, states: seq<State>, actions: seq<Action>) {
    && |states| == |actions| + 1
    && states[0] == Init(c)
    && forall i :: 0 <= i < |actions| ==> Enabled(c, states[i], actions[i]) && states[i + 1] == Do(c, states[i], actions[i])
  }

  /** In every run, whatever the schedule and the interrupt, every state satisfies the invariant, and the number of steps is bounded. */
  lemma {:induction false} RunInv(c: Config, states: seq<State>, actions: seq<Action>, n: nat)
    requires ValidConfig(c) && Run(c, states, actions) && n <= |actions|
    ensures Inv(c, states[n])
    ensures 0 <= Remaining(c, states[n]) <= Remaining(c, Init(c)) - n
  {
    if n == 0 {
      InitInv(c);
    } else {
      RunInv(c, states, actions, n - 1);
      StepKeepsInv(c, states[n - 1], actions[n - 1]);
      StepDecreases(c, states[n - 1], actions[n - 1]);
    }
  }

  // ----- what is there at the end

  lemma {:induction false} CountTwice(js: seq<Job>, i: nat, j: nat, n: nat)
    requires i < j < n <= |js| && js[i].id == js[j].id
    ensures Count(js, n, js[i].id) >= 2
  {
    if j == n - 1 {
      CountMember(js, j, js[i].id);
    } else {
      CountTwice(js, i, j, n - 1);
    }
  }

  lemma {:induction false} HeldTwice(ws: seq<Worker>, i: nat, j: nat, n: nat)
    requires i < j < n <= |ws| && !ws[i].Ready? && !ws[j].Ready? && ws[i].job.id == ws[j].job.id
    ensures HeldCount(ws, n, ws[i].job.id) >= 2
  {
    if j == n - 1 {
      HeldMember(ws, j, ws[i].job.id);
    } else {
      HeldTwice(ws, i, j, n - 1);
    }
  }

  /** Distinct numbers from an interval are at most as many as the interval has. */
  lemma DistinctInInterval(s: seq<nat>, lo: nat, n: nat)
    requires Distinct(s) && forall k :: 0 <= k < |s| ==> lo <= s[k] < lo + n
    ensures |s| <= n
    ensures |s| == n ==> Elements(s) == Interval(lo, n)
  {
    IntervalSize(lo, n);
    DistinctSize(s);
    SubsetSize(Elements(s), Interval(lo, n));
  }

  /** When all workers have left, each has taken a sentinel of its own, and nothing is left in the input queue. */
  lemma AllSentinelsTaken(c: Config, s: State)
    requires ValidConfig(c) && Inv(c, s)
    requires forall w :: 0 <= w < |s.workers| ==> s.workers[w].Exited?
    ensures s.input == []
    ensures forall v, w :: 0 <= v < w < |s.workers| ==> s.workers[v].job != s.workers[w].job
    ensures forall w :: 0 <= w < |s.workers| ==> |c.suite| <= s.workers[w].job.id < |c.suite| + c.processors
  {
    var n := |s.workers|;
    var ids := seq(n, w requires 0 <= w < n => s.workers[w].job.id);
    forall w | 0 <= w < n ensures |c.suite| <= ids[w] < Taken(c, s) {
      assert WorkerOk(c, s.workers[w], Taken(c, s), s.interrupted);
      HeldMember(s.workers, n, ids[w]);
      assert Places(s.workers, s.output, s.collected, ids[w]) == if ids[w] < Taken(c, s) then 1 else 0;
    }
    forall v, w | 0 <= v < w < n ensures ids[v] != ids[w] {
      assert Places(s.workers, s.output, s.collected, ids[v]) <= 1;
      if ids[v] == ids[w] {
        HeldTwice(s.workers, v, w, n);
      }
    }
    assert ids[0] == s.workers[0].job.id;
    DistinctInInterval(ids, |c.suite|, Taken(c, s) - |c.suite|);
    forall v, w | 0 <= v < w < n ensures s.workers[v].job != s.workers[w].job {
      assert ids[v] != ids[w];
    }
    forall w | 0 <= w < n ensures |c.suite| <= s.workers[w].job.id < |c.suite| + c.processors {
      assert ids[w] < Taken(c, s);
    }
  }

  ghost function IdsOf(js: seq<Job>): seq<nat> {
    seq(|js|, k requires 0 <= k < |js| => js[k].id)
  }

  lemma CollectedIds(c: Config, s: State)
    requires ValidConfig(c) && Inv(c, s)
    requires |s.collected| == |c.suite|
    ensures Distinct(IdsOf(s.collected)) && Elements(IdsOf(s.collected)) == Interval(0, |c.suite|)
    ensures s.output == []
  {
    var ids := IdsOf(s.collected);
    forall i, j | 0 <= i < j < |ids| ensures ids[i] != ids[j] {
      assert Places(s.workers, s.output, s.collected, ids[i]) <= 1;
      if ids[i] == ids[j] {
        CountTwice(s.collected, i, j, |s.collected|);
      }
    }
    DistinctInInterval(ids, 0, |c.suite|);
    if s.output != [] {
      var y := s.output[0].id;
      assert Returned(c, s.output[0], s.interrupted);
      IntervalSize(0, |c.suite|);
      assert y in Elements(ids);
      assert Places(s.workers, s.output, s.collected, y) <= 1;
      CountMember(s.output, |s.output|, y);
      CountMember(s.collected, |s.collected|, y);
    }
  }

  /** When main has finished, all workers have left, both queues are empty, and every job has come back exactly once. */
  lemma FinishedClean(c: Config, s: State)
    requires ValidConfig(c) && Inv(c, s) && s.main.Finished?
    ensures forall w :: 0 <= w < |s.workers| ==> s.workers[w].Exited?
    ensures s.input == [] && s.output == []
    ensures Distinct(IdsOf(s.collected)) && Elements(IdsOf(s.collected)) == Interval(0, |c.suite|)
  {
    AllSentinelsTaken(c, s);
    CollectedIds(c, s);
  }

  // ----- the summary

  function VerdictCount(js: seq<Job>, n: nat, v: Verdict): nat
    requires n <= |js|
  {
    if n == 0 then 0 else VerdictCount(js, n - 1, v) + if VerdictOf(js[n - 1]) == v then 1 else 0
  }

  /** The summary counts the verdicts, and they and the breaks add up to what has been collected. */
  lemma {:induction false} TallyCounts(js: seq<Job>, n: nat)
    requires n <= |js|
    ensures var t := Tallied(js, n);
            && t.passed == VerdictCount(js, n, Pass) && t.failed == VerdictCount(js, n, Fail)
            && t.valgrind == VerdictCount(js, n, Valgrind) && t.crashed == VerdictCount(js, n, Crash)
            && t.skipped == VerdictCount(js, n, Skip)
            && t.passed + t.failed + t.valgrind + t.crashed + t.skipped + VerdictCount(js, n, Break) == n
  {
    if n > 0 {
      TallyCounts(js, n - 1);
    }
  }

  ghost function WithVerdict(s: set<Job>, v: Verdict): set<Job> {
    set j | j in s && VerdictOf(j) == v
  }

  lemma WithVerdictGrows(s: set<Job>, j: Job, v: Verdict)
    requires j !in s
    ensures |WithVerdict(s + {j}, v)| == |WithVerdict(s, v)| + if VerdictOf(j) == v then 1 else 0
  {
    if VerdictOf(j) == v {
      assert WithVerdict(s + {j}, v) == WithVerdict(s, v) + {j};
    } else {
      assert WithVerdict(s + {j}, v) == WithVerdict(s, v);
    }
  }

  /** For a list without repetitions, the order does not matter. */
  lemma {:induction false} VerdictCountIsSize(js: seq<Job>, n: nat, v: Verdict)
    requires n <= |js| && Distinct(js)
    ensures VerdictCount(js, n, v) == |WithVerdict(Elements(js[..n]), v)|
  {
    if n == 0 {
      assert WithVerdict(Elements(js[..0]), v) == {};
    } else {
      VerdictCountIsSize(js, n - 1, v);
      assert js[..n] == js[..n - 1] + [js[n - 1]];
      assert Elements(js[..n]) == Elements(js[..n - 1]) + {js[n - 1]};
      WithVerdictGrows(Elements(js[..n - 1]), js[n - 1], v);
    }
  }

  /** The results in dispatch order, were each job run alone. */
  ghost function AllExpected(c: Config): seq<Job>
    requires ValidConfig(c)
  {
    seq(|c.suite|, i requires 0 <= i < |c.suite| => Expected(c, i))
  }

  /** Without an interrupt, what main collects is what each job yields on its own, in some order. */
  lemma CollectedIsExpected(c: Config, s: State)
    requires ValidConfig(c) && Inv(c, s) && s.main.Finished? && !s.interrupted
    ensures Distinct(s.collected) && Distinct(AllExpected(c))
    ensures Elements(s.collected) == Elements(AllExpected(c))
  {
    CollectedIds(c, s);
    IntervalSize(0, |c.suite|);
    var ids, want := IdsOf(s.collected), AllExpected(c);
    forall i, j | 0 <= i < j < |s.collected| ensures s.collected[i] != s.collected[j] {
      assert ids[i] != ids[j];
    }
    forall i | 0 <= i < |want| ensures want[i].id == i && want[i] in s.collected {
      assert i in Elements(ids);
      var k :| 0 <= k < |ids| && ids[k] == i;
      assert Returned(c, s.collected[k], s.interrupted);
    }
    forall k | 0 <= k < |s.collected| ensures s.collected[k] in want {
      assert Returned(c, s.collected[k], s.interrupted);
      assert s.collected[k] == want[s.collected[k].id];
    }
  }

  /** So without an interrupt the summary is the same for every schedule. */
  lemma SummaryIsDetermined(c: Config, s: State)
    requires ValidConfig(c) && Inv(c, s) && s.main.Finished? && !s.interrupted
    ensures s.tally == Tallied(AllExpected(c), |c.suite|)
    ensures s.tally.passed + s.tally.failed + s.tally.valgrind + s.tally.crashed + s.tally.skipped == |c.suite|
  {
    CollectedIsExpected(c, s);
    var a, b := s.collected, AllExpected(c);
    forall v ensures VerdictCount(a, |a|, v) == VerdictCount(b, |b|, v) {
      VerdictCountIsSize(a, |a|, v);
      VerdictCountIsSize(b, |b|, v);
      assert a[..|a|] == a && b[..|b|] == b;
    }
    TallyCounts(a, |a|);
    TallyCounts(b, |b|);
    NoBreaks(c, s, |a|);
  }

  lemma {:induction false} NoBreaks(c: Config, s: State, n: nat)
    requires Inv(c, s) && !s.interrupted && n <= |s.collected|
    ensures VerdictCount(s.collected, n, Break) == 0
  {
    if n > 0 {
      NoBreaks(c, s, n - 1);
      assert Returned(c, s.collected[n - 1], s.interrupted);
    }
  }

  lemma {:induction false} CountsNone(js: seq<Job>, n: nat, v: Verdict)
    requires n <= |js|
    ensures VerdictCount(js, n, v) == 0 <==> forall k :: 0 <= k < n ==> VerdictOf(js[k]) != v
  {
    if n > 0 {
      CountsNone(js, n - 1, v);
    }
  }

  /** The result is 0 exactly when every job came back passed or skipped; a job returned as a break counts against it. */
  lemma ResultMeans(c: Config, s: State)
    requires ValidConfig(c) && Inv(c, s) && s.main.Finished?
    ensures s.main.result == 0 <==> forall k :: 0 <= k < |s.collected| ==> VerdictOf(s.collected[k]) in {Pass, Skip}
    ensures s.main.result in {0, 1}
    ensures |c.suite| - (s.tally.passed + s.tally.failed + s.tally.valgrind + s.tally.crashed + s.tally.skipped)
         == VerdictCount(s.collected, |s.collected|, Break)
  {
    var js := s.collected;
    TallyCounts(js, |js|);
    CountsNone(js, |js|, Fail);
    CountsNone(js, |js|, Valgrind);
    CountsNone(js, |js|, Crash);
    CountsNone(js, |js|, Break);
  }

  // ----- the summary, told from what has been collected

  /** The places among the first n of jobs that were run and returned r. */
  ghost function BackWith(js: seq<Job>, n: nat, r: int): set<nat>
    requires n <= |js|
  {
    set k: nat | k < n && !js[k].isBreak && !js[k].isSkip && js[k].returncode == r
  }

  ghost function BackCrashed(js: seq<Job>, n: nat): set<nat>
    requires n <= |js|
  {
    set k: nat | k < n && !js[k].isBreak && !js[k].isSkip && js[k].returncode !in {0, 1, 2}
  }

  ghost function BackSkipped(js: seq<Job>, n: nat): set<nat>
    requires n <= |js|
  {
    set k: nat | k < n && !js[k].isBreak && js[k].isSkip
  }

  lemma BackWithMore(js: seq<Job>, n: nat, r: int)
    requires n < |js|
    ensures |BackWith(js, n + 1, r)| == |BackWith(js, n, r)| + if !js[n].isBreak && !js[n].isSkip && js[n].returncode == r then 1 else 0
  {
    assert BackWith(js, n + 1, r) == BackWith(js, n, r) + if !js[n].isBreak && !js[n].isSkip && js[n].returncode == r then {n} else {};
  }

  lemma BackCrashedMore(js: seq<Job>, n: nat)
    requires n < |js|
    ensures |BackCrashed(js, n + 1)|
         == |BackCrashed(js, n)| + if !js[n].isBreak && !js[n].isSkip && js[n].returncode !in {0, 1, 2} then 1 else 0
  {
    assert BackCrashed(js, n + 1) == BackCrashed(js, n) + if !js[n].isBreak && !js[n].isSkip && js[n].returncode !in {0, 1, 2} then {n} else {};
  }

  lemma BackSkippedMore(js: seq<Job>, n: nat)
    requires n < |js|
    ensures |BackSkipped(js, n + 1)| == |BackSkipped(js, n)| + if !js[n].isBreak && js[n].isSkip then 1 else 0
  {
    assert BackSkipped(js, n + 1) == BackSkipped(js, n) + if !js[n].isBreak && js[n].isSkip then {n} else {};
  }

  /** The counters, breaks or not: those back with 0, 1, 2 and anything else, and those skipped. */
  lemma {:induction false} TallyFromJobs(js: seq<Job>, n: nat)
    requires n <= |js|
    ensures Tallied(js, n)
         == Tally(|BackWith(js, n, 0)|, |BackWith(js, n, 1)|, |BackWith(js, n, 2)|, |BackCrashed(js, n)|, |BackSkipped(js, n)|)
  {
    if n > 0 {
      TallyFromJobs(js, n - 1);
      BackWithMore(js, n - 1, 0);
      BackWithMore(js, n - 1, 1);
      BackWithMore(js, n - 1, 2);
      BackCrashedMore(js, n - 1);
      BackSkippedMore(js, n - 1);
    }
  }

  // ----- what the exit codes determine

  /** The first n tests that are not skipped and return r. */
  ghost function Returning(c: Config, n: nat, r: int): set<nat>
    requires n <= |c.suite|
  {
    set i: nat | i < n && !c.suite[i].isSkip && c.code(i) == r
  }

  ghost function Crashing(c: Config, n: nat): set<nat>
    requires n <= |c.suite|
  {
    set i: nat | i < n && !c.suite[i].isSkip && c.code(i) !in {0, 1, 2}
  }

  ghost function Skipping(c: Config, n: nat): set<nat>
    requires n <= |c.suite|
  {
    set i: nat | i < n && c.suite[i].isSkip
  }

  lemma ReturningMore(c: Config, i: nat, r: int)
    requires i < |c.suite|
    ensures |Returning(c, i + 1, r)| == |Returning(c, i, r)| + if !c.suite[i].isSkip && c.code(i) == r then 1 else 0
  {
    assert Returning(c, i + 1, r) == Returning(c, i, r) + if !c.suite[i].isSkip && c.code(i) == r then {i} else {};
  }

  lemma CrashingMore(c: Config, i: nat)
    requires i < |c.suite|
    ensures |Crashing(c, i + 1)| == |Crashing(c, i)| + if !c.suite[i].isSkip && c.code(i) !in {0, 1, 2} then 1 else 0
  {
    assert Crashing(c, i + 1) == Crashing(c, i) + if !c.suite[i].isSkip && c.code(i) !in {0, 1, 2} then {i} else {};
  }

  lemma SkippingMore(c: Config, i: nat)
    requires i < |c.suite|
    ensures |Skipping(c, i + 1)| == |Skipping(c, i)| + if c.suite[i].isSkip then 1 else 0
  {
    assert Skipping(c, i + 1) == Skipping(c, i) + if c.suite[i].isSkip then {i} else {};
  }

  ghost function CodesTally(c: Config, n: nat): Tally
    requires n <= |c.suite|
  {
    Tally(|Returning(c, n, 0)|, |Returning(c, n, 1)|, |Returning(c, n, 2)|, |Crashing(c, n)|, |Skipping(c, n)|)
  }

  lemma CodesTallyMore(c: Config, i: nat)
    requires ValidConfig(c) && i < |c.suite|
    ensures CodesTally(c, i + 1) == Record(CodesTally(c, i), VerdictOf(Expected(c, i)))
  {
    ReturningMore(c, i, 0);
    ReturningMore(c, i, 1);
    ReturningMore(c, i, 2);
    CrashingMore(c, i);
    SkippingMore(c, i);
  }

  lemma {:induction false} TalliedByCodes(c: Config, js: seq<Job>, n: nat)
    requires ValidConfig(c) && n <= |js| == |c.suite|
    requires forall i :: 0 <= i < |js| ==> js[i] == Expected(c, i)
    ensures Tallied(js, n) == CodesTally(c, n)
  {
    if n > 0 {
      TalliedByCodes(c, js, n - 1);
      CodesTallyMore(c, n - 1);
    }
  }

  /** Without an interrupt, the counters are the numbers of the tests that return 0, 1, 2 and anything else, and of those skipped. */
  lemma CountersFromCodes(c: Config, s: State)
    requires ValidConfig(c) && Inv(c, s) && s.main.Finished? && !s.interrupted
    ensures s.tally.passed == |set i: nat | i < |c.suite| && !c.suite[i].isSkip && c.code(i) == 0|
    ensures s.tally.failed == |set i: nat | i < |c.suite| && !c.suite[i].isSkip && c.code(i) == 1|
    ensures s.tally.valgrind == |set i: nat | i < |c.suite| && !c.suite[i].isSkip && c.code(i) == 2|
    ensures s.tally.crashed == |set i: nat | i < |c.suite| && !c.suite[i].isSkip && c.code(i) !in {0, 1, 2}|
    ensures s.tally.skipped == |set i: nat | i < |c.suite| && c.suite[i].isSkip|
  {
    SummaryIsDetermined(c, s);
    TalliedByCodes(c, AllExpected(c), |c.suite|);
  }

  /** Whatever happens, the result is 0 exactly when every job came back, and was skipped or returned 0. */
  lemma ResultFromJobs(c: Config, s: State)
    requires ValidConfig(c) && Inv(c, s) && s.main.Finished?
    ensures s.main.result == 0 <==> forall j :: j in s.collected ==> !j.isBreak && (j.isSkip || j.returncode == 0)
    ensures s.main.result != 0 ==> s.main.result == 1
  {
    ResultMeans(c, s);
  }

  /** Without an interrupt, the result is 0 exactly when every test is skipped or returns 0. */
  lemma ResultFromCodes(c: Config, s: State)
    requires ValidConfig(c) && Inv(c, s) && s.main.Finished? && !s.interrupted
    ensures s.main.result == 0 <==> forall i :: 0 <= i < |c.suite| ==> c.suite[i].isSkip || c.code(i) == 0
  {
    ResultFromJobs(c, s);
    CollectedIsExpected(c, s);
    var want := AllExpected(c);
    forall i | 0 <= i < |c.suite|
      ensures want[i] in s.collected && want[i] == if c.suite[i].isSkip then c.suite[i] else c.suite[i].(returncode := c.code(i))
    {
      assert want[i] in Elements(s.collected);
    }
    forall j | j in s.collected ensures exists i :: 0 <= i < |c.suite| && j == want[i] {
      assert j in Elements(want);
    }
  }

  /** What comes back is the test as it was dispatched, with its process's exit code unless it is skipped, or a break. */
  lemma CollectedJob(c: Config, s: State, j: Job)
    requires ValidConfig(c) && Inv(c, s) && j in s.collected
    ensures j.id < |c.suite| && (j.isBreak ==> s.interrupted)
    ensures !j.isBreak ==> j.isSkip == c.suite[j.id].isSkip && j.returncode == if j.isSkip then c.suite[j.id].returncode else c.code(j.id)
  {
    var k :| 0 <= k < |s.collected| && s.collected[k] == j;
    assert Returned(c, s.collected[k], s.interrupted);
  }

  // ----- the interrupt

  /** Test y, run to its end or skipped. */
  predicate IsResult(c: Config, j: Job, y: nat) {
    j.id == y < |c.suite| && !j.isBreak
  }

  predicate Runs(c: Config, w: Worker, y: nat) {
    (w.Launched? && w.job.id == y) || (w.Reporting? && IsResult(c, w.job, y))
  }

  /** Test y has been skipped, or its process has been started. */
  ghost predicate Ran(c: Config, s: State, y: nat) {
    || (exists w :: 0 <= w < |s.workers| && Runs(c, s.workers[w], y))
    || (exists j :: j in s.output && IsResult(c, j, y))
    || (exists j :: j in s.collected && IsResult(c, j, y))
  }

  /** No step starts a process, or skips a test, once the interrupt has come. */
  lemma NothingStarted(c: Config, s: State, a: Action, s': State, y: nat)
    requires ValidConfig(c) && Inv(c, s) && Enabled(c, s, a) && s' == Do(c, s, a) && s.interrupted
    ensures s'.interrupted && (Ran(c, s', y) ==> Ran(c, s, y))
  {
    if w :| 0 <= w < |s'.workers| && Runs(c, s'.workers[w], y) {
      assert WorkerOk(c, s.workers[w], Taken(c, s), s.interrupted);
      assert Runs(c, s.workers[w], y);
    } else if j :| j in s'.output && IsResult(c, j, y) {
      if j !in s.output {
        assert Runs(c, s.workers[a.w], y);
      }
    } else if j :| j in s'.collected && IsResult(c, j, y) {
      assert j in s.collected || j in s.output;
    }
  }

  /** Between an interrupted state and a later one, nothing has been started. */
  ghost predicate NoneStarted(c: Config, s: State, s': State, y: nat) {
    s'.interrupted && (Ran(c, s', y) ==> Ran(c, s, y))
  }

  lemma NoneStartedStep(c: Config, states: seq<State>, actions: seq<Action>, m: nat, n: nat, y: nat)
    requires ValidConfig(c) && Run(c, states, actions) && m <= n < |actions| && NoneStarted(c, states[m], states[n], y)
    ensures NoneStarted(c, states[m], states[n + 1], y)
  {
    var s, a, s' := states[n], actions[n], states[n + 1];
    assert Enabled(c, s, a) && s' == Do(c, s, a);
    RunInv(c, states, actions, n);
    NothingStarted(c, s, a, s', y);
  }

  /** So only tests skipped or started before it come back as such; the others come back as breaks. */
  lemma {:induction false} RanBeforeInterrupt(c: Config, states: seq<State>, actions: seq<Action>, m: nat, n: nat, y: nat)
    requires ValidConfig(c) && Run(c, states, actions) && m <= n <= |actions| && states[m].interrupted
    ensures NoneStarted(c, states[m], states[n], y)
    decreases n
  {
    if m < n {
      RanBeforeInterrupt(c, states, actions, m, n - 1, y);
      NoneStartedStep(c, states, actions, m, n - 1, y);
    }
  }

  // ----- all runs

  /** A state in which main is done: all has come back, and result and counters are what the exit codes determine. */
  ghost predicate Done(c: Config, s: State) {
    && s.main.Finished? && s.input == [] && s.output == []
    && (forall w :: 0 <= w < |s.workers| ==> s.workers[w].Exited?)
    && (s.main.result == 0 <==> forall j :: j in s.collected ==> !j.isBreak && (j.isSkip || j.returncode == 0))
    && (!s.interrupted ==>
          && (s.main.result == 0 <==> forall i :: 0 <= i < |c.suite| ==> c.suite[i].isSkip || c.code(i) == 0)
          && s.tally.passed == |set i: nat | i < |c.suite| && !c.suite[i].isSkip && c.code(i) == 0|
          && s.tally.failed == |set i: nat | i < |c.suite| && !c.suite[i].isSkip && c.code(i) == 1|
          && s.tally.valgrind == |set i: nat | i < |c.suite| && !c.suite[i].isSkip && c.code(i) == 2|
          && s.tally.crashed == |set i: nat | i < |c.suite| && !c.suite[i].isSkip && c.code(i) !in {0, 1, 2}|
          && s.tally.skipped == |set i: nat | i < |c.suite| && c.suite[i].isSkip|)
  }

  lemma FinishedDone(c: Config, s: State)
    requires ValidConfig(c) && Inv(c, s) && s.main.Finished?
    ensures Done(c, s)
  {
    FinishedClean(c, s);
    ResultFromJobs(c, s);
    if !s.interrupted {
      ResultFromCodes(c, s);
      CountersFromCodes(c, s);
    }
  }

  /** All of it, for runs: whatever the schedule and the interrupt, a run that cannot be continued has finished, cleanly, with the result the exit codes determine. */
  lemma EveryRun(c: Config, states: seq<State>, actions: seq<Action>)
    requires ValidConfig(c) && Run(c, states, actions)
    ensures |actions| <= Remaining(c, Init(c))
    ensures Inv(c, states[|actions|])
    ensures (forall a :: a != Interrupt ==> !Enabled(c, states[|actions|], a)) ==> Done(c, states[|actions|])
  {
    RunInv(c, states, actions, |actions|);
    var s := states[|actions|];
    if forall a :: a != Interrupt ==> !Enabled(c, s, a) {
      if !s.main.Finished? {
        NoDeadlock(c, s);
      }
      FinishedDone(c, s);
    }
  }
}
