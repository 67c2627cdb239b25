/**
 The deployment's fork/join: tasks spawn tasks through do(), report failures on an unbuffered channel that a
 collector goroutine drains, and the caller waits for all of them before it closes the channel. Every step of
 every goroutine is a step here, in any order.
 */
module ForkJoin {
  import opened Collections

  /** An action: it hands its children to do() one by one and then returns, with an error or without. */
  datatype Task = Task(fails: bool, children: seq<Task>)

  datatype Goroutine =
    | Acting(task: Task, spawned: nat)
    | Sending                           // failed <- true
    | Exiting                           // the deferred wg.Done
    | Ended

  datatype Main = Spawning | Waiting | Closing | Draining | Returned

  datatype Collector = NotStarted | Ranging | Finished

  /** `panicked` records a send on the closed channel or a WaitGroup counter below zero. */
  datatype State = State(roots: seq<Task>, started: nat, main: Main, goroutines: seq<Goroutine>,
                         wg: int, collector: Collector, failedCount: nat, closed: bool, panicked: bool)

  datatype Event =
    | SpawnRoot
    | StartCollector
    | PassWait
    | CloseFailed
    | Return
    | CollectorEnds
    | SpawnChild(i: nat)
    | Act(i: nat)       // the action returns
    | Send(i: nat)
    | Done(i: nat)

  function Start(roots: seq<Task>): State {
    State(roots, 0, Spawning, [], 0, NotStarted, 0, false, false)
  }

  predicate Enabled(s: State, e: Event) {
    match e
    case SpawnRoot => s.main.Spawning? && s.started < |s.roots|
    case StartCollector => s.main.Spawning? && s.started == |s.roots|
    case PassWait => s.main.Waiting? && s.wg == 0
    case CloseFailed => s.main.Closing?
    case Return => s.main.Draining? && s.collector.Finished?
    case CollectorEnds => s.collector.Ranging? && s.closed
    case SpawnChild(i) =>
      i < |s.goroutines| && s.goroutines[i].Acting? && s.goroutines[i].spawned < |s.goroutines[i].task.children|
    case Act(i) =>
      i < |s.goroutines| && s.goroutines[i].Acting? && s.goroutines[i].spawned == |s.goroutines[i].task.children|
    case Send(i) => i < |s.goroutines| && s.goroutines[i].Sending? && (s.collector.Ranging? || s.closed)
    case Done(i) => i < |s.goroutines| && s.goroutines[i].Exiting?
  }

  /** do(): wg.Add(1), then the new goroutine. */
  function Do(s: State, task: Task): State {
    s.(wg := s.wg + 1, goroutines := s.goroutines + [Acting(task, 0)])
  }

  function Step(s: State, e: Event): State
    requires Enabled(s, e)
  {
    match e
    case SpawnRoot => Do(s.(started := s.started + 1), s.roots[s.started])
    case StartCollector => s.(main := Waiting, collector := Ranging)
    case PassWait => s.(main := Closing)
    case CloseFailed => s.(main := Draining, closed := true)
    case Return => s.(main := Returned)
    case CollectorEnds => s.(collector := Finished)
    case SpawnChild(i) =>
      var g := s.goroutines[i];
      Do(s.(goroutines := s.goroutines[i := Acting(g.task, g.spawned + 1)]), g.task.children[g.spawned])
    case Act(i) => s.(goroutines := s.goroutines[i := if s.goroutines[i].task.fails then Sending else Exiting])
    case Send(i) =>
      if s.closed then s.(panicked := true)
      else s.(goroutines := s.goroutines[i := Exiting], failedCount := s.failedCount + 1)
    case Done(i) =>
      s.(goroutines := s.goroutines[i := Ended], wg := s.wg - 1, panicked := s.panicked || s.wg <= 0)
  }

  predicate ValidRun(s: State, es: seq<Event>)
    decreases |es|
  {
    es != [] ==> Enabled(s, es[0]) && ValidRun(Step(s, es[0]), es[1..])
  }

  function Run(s: State, es: seq<Event>): State
    requires ValidRun(s, es)
    decreases |es|
  {
    if es == [] then s else Run(Step(s, es[0]), es[1..])
  }

  // ---------------------------------------------------------------- accounting

  /** The number of tasks in a forest that return an error. */
  function Failures(ts: seq<Task>): nat {
    if |ts| == 0 then 0 else (if ts[0].fails then 1 else 0) + Failures(ts[0].children) + Failures(ts[1..])
  }

  function Size(ts: seq<Task>): nat {
    if |ts| == 0 then 0 else 1 + Size(ts[0].children) + Size(ts[1..])
  }

  /** The steps a forest still takes before all of it has ended: per task, to be spawned, act, send and exit. */
  function Work(ts: seq<Task>): nat {
    if |ts| == 0 then 0 else 4 + Work(ts[0].children) + Work(ts[1..])
  }

  /** What a goroutine still holds: itself in the WaitGroup, failures and tasks to come, steps to go. */
  datatype Load = Load(live: int, failures: int, tasks: int, work: int)

  function Plus(a: Load, b: Load): Load {
    Load(a.live + b.live, a.failures + b.failures, a.tasks + b.tasks, a.work + b.work)
  }

  function Forest(ts: seq<Task>): Load { Load(0, Failures(ts), Size(ts), Work(ts)) }

  function LoadOf(g: Goroutine): Load {
    match g
    case Acting(task, spawned) =>
      var rest := if spawned <= |task.children| then task.children[spawned..] else [];
      Plus(Load(1, if task.fails then 1 else 0, 0, 3), Forest(rest))
    case Sending => Load(1, 1, 0, 2)
    case Exiting => Load(1, 0, 0, 1)
    case Ended => Load(0, 0, 0, 0)
  }

  function Loads(gs: seq<Goroutine>, n: nat): Load
    requires n <= |gs|
  {
    if n == 0 then Load(0, 0, 0, 0) else Plus(Loads(gs, n - 1), LoadOf(gs[n - 1]))
  }

  lemma {:induction false} LoadsUpdate(gs: seq<Goroutine>, i: nat, g: Goroutine, n: nat)
    requires i < |gs| && n <= |gs|
    ensures i < n ==> Plus(Loads(gs[i := g], n), LoadOf(gs[i])) == Plus(Loads(gs, n), LoadOf(g))
    ensures n <= i ==> Loads(gs[i := g], n) == Loads(gs, n)
  {
    hide LoadOf;
    if n > 0 {
      LoadsUpdate(gs, i, g, n - 1);
    }
  }

  lemma {:induction false} LoadsAppend(gs: seq<Goroutine>, g: Goroutine, n: nat)
    requires n <= |gs|
    ensures Loads(gs + [g], n) == Loads(gs, n)
  {
    hide LoadOf;
    if n > 0 {
      LoadsAppend(gs, g, n - 1);
    }
  }

  /** Everything that is still to come: in goroutines, and in roots not spawned yet. */
  function Pending(s: State): Load {
    Plus(Loads(s.goroutines, |s.goroutines|), Forest(if s.started <= |s.roots| then s.roots[s.started..] else []))
  }

  /** A new goroutine brings the load of a task about to act. */
  lemma DoLoads(gs: seq<Goroutine>, task: Task)
    ensures var all := gs + [Acting(task, 0)];
            Loads(all, |all|) == Plus(Loads(gs, |gs|), Plus(Load(1, if task.fails then 1 else 0, 0, 3), Forest(task.children)))
  {
    LoadsAppend(gs, Acting(task, 0), |gs|);
    assert task.children[0..] == task.children;
  }

  lemma FirstFailures(ts: seq<Task>)
    requires |ts| > 0
    ensures Failures(ts) == (if ts[0].fails then 1 else 0) + Failures(ts[0].children) + Failures(ts[1..])
  {
  }

  lemma FirstSize(ts: seq<Task>)
    requires |ts| > 0
    ensures Size(ts) == 1 + Size(ts[0].children) + Size(ts[1..])
  {
  }

  lemma FirstWork(ts: seq<Task>)
    requires |ts| > 0
    ensures Work(ts) == 4 + Work(ts[0].children) + Work(ts[1..])
  {
  }

  lemma FirstTask(ts: seq<Task>)
    requires |ts| > 0
    ensures Forest(ts) == Plus(Load(0, if ts[0].fails then 1 else 0, 1, 4), Plus(Forest(ts[0].children), Forest(ts[1..])))
  {
    hide Failures, Size, Work;
    FirstFailures(ts);
    FirstSize(ts);
    FirstWork(ts);
  }

  lemma NextTask(ts: seq<Task>, k: nat)
    requires k < |ts|
    ensures Forest(ts[k..]) == Plus(Load(0, if ts[k].fails then 1 else 0, 1, 4), Plus(Forest(ts[k].children), Forest(ts[k + 1..])))
  {
    hide Forest, Plus;
    FirstTask(ts[k..]);
    assert ts[k..][0] == ts[k] && ts[k..][1..] == ts[k + 1..];
  }

  // ---------------------------------------------------------------- what every step keeps

  function MainSteps(m: Main): nat {
    match m
    case Spawning => 4
    case Waiting => 3
    case Closing => 2
    case Draining => 1
    case Returned => 0
  }

  ghost predicate Inv(s: State) {
    var p := Pending(s);
    && s.started <= |s.roots|
    && (forall i :: 0 <= i < |s.goroutines| && s.goroutines[i].Acting?
          ==> s.goroutines[i].spawned <= |s.goroutines[i].task.children|)
    && !s.panicked
    && s.wg == p.live
    && s.failedCount + p.failures == Failures(s.roots)
    && |s.goroutines| + p.tasks == Size(s.roots)
    && (!s.main.Spawning? ==> s.started == |s.roots|)
    && (s.main.Closing? || s.main.Draining? || s.main.Returned? ==> s.wg == 0)
    && (s.closed <==> s.main.Draining? || s.main.Returned?)
    && (s.collector.NotStarted? <==> s.main.Spawning?)
    && (s.collector.Finished? ==> s.closed)
    && (s.main.Returned? ==> s.collector.Finished?)
  }

  lemma {:induction false} LiveCount(gs: seq<Goroutine>, n: nat)
    requires n <= |gs|
    ensures Loads(gs, n).live >= 0 && Loads(gs, n).failures >= 0 && Loads(gs, n).tasks >= 0 && Loads(gs, n).work >= Loads(gs, n).live
    ensures Loads(gs, n).live == 0 <==> forall i :: 0 <= i < n ==> gs[i].Ended?
    ensures Loads(gs, n).live == 0 ==> Loads(gs, n).failures == Loads(gs, n).tasks == 0
  {
    if n > 0 {
      LiveCount(gs, n - 1);
    }
  }

  /** While any goroutine has not ended, the WaitGroup counter is above zero. */
  lemma CounterPositive(s: State, i: nat)
    requires Inv(s) && i < |s.goroutines| && !s.goroutines[i].Ended?
    ensures s.wg > 0
  {
    LiveCount(s.goroutines, |s.goroutines|);
  }

  function Shifted(p: Load, live: int, failures: int, tasks: int, work: int): Load {
    Plus(p, Load(live, failures, tasks, work))
  }

  /** Spawning a root moves its task from the pending roots into a goroutine. */
  lemma SpawnRootPending(s: State)
    requires Enabled(s, SpawnRoot)
    ensures Pending(Step(s, SpawnRoot)) == Shifted(Pending(s), 1, 0, -1, -1)
  {
    hide Loads, Forest;
    DoLoads(s.goroutines, s.roots[s.started]);
    NextTask(s.roots, s.started);
  }

  lemma ActingLoad(task: Task, spawned: nat)
    requires spawned <= |task.children|
    ensures LoadOf(Acting(task, spawned)) == Plus(Load(1, if task.fails then 1 else 0, 0, 3), Forest(task.children[spawned..]))
  {
  }

  /** Spawning a child moves its task from its parent's list into a goroutine of its own. */
  lemma SpawnChildPending(s: State, i: nat)
    requires Enabled(s, SpawnChild(i))
    ensures Pending(Step(s, SpawnChild(i))) == Shifted(Pending(s), 1, 0, -1, -1)
  {
    hide Loads, Forest, LoadOf;
    var g := s.goroutines[i];
    var grown := Acting(g.task, g.spawned + 1);
    LoadsUpdate(s.goroutines, i, grown, |s.goroutines|);
    ActingLoad(g.task, g.spawned);
    ActingLoad(g.task, g.spawned + 1);
    NextTask(g.task.children, g.spawned);
    DoLoads(s.goroutines[i := grown], g.task.children[g.spawned]);
  }

  lemma NoTasks(ts: seq<Task>)
    requires |ts| == 0
    ensures Forest(ts) == Load(0, 0, 0, 0)
  {
  }

  /** Any other step of a goroutine replaces it by one that is further on. */
  lemma MovePending(s: State, e: Event)
    requires Enabled(s, e) && (e.Act? || (e.Send? && !s.closed) || e.Done?)
    ensures var p, q := Pending(s), Pending(Step(s, e));
            && q.tasks == p.tasks && q.work < p.work
            && q.live == p.live - (if e.Done? then 1 else 0)
            && q.failures == p.failures - (if e.Send? then 1 else 0)
  {
    hide Loads, Forest, LoadOf;
    var g, h := s.goroutines[e.i], Step(s, e).goroutines[e.i];
    LoadsUpdate(s.goroutines, e.i, h, |s.goroutines|);
    assert Step(s, e).goroutines == s.goroutines[e.i := h];
    if e.Act? {
      ReturnedLoad(g);
    }
    FlatLoads(g);
    FlatLoads(h);
  }

  lemma ReturnedLoad(g: Goroutine)
    requires g.Acting? && g.spawned == |g.task.children|
    ensures LoadOf(g) == Load(1, if g.task.fails then 1 else 0, 0, 3)
  {
    hide Forest, LoadOf;
    ActingLoad(g.task, g.spawned);
    NoTasks(g.task.children[g.spawned..]);
  }

  lemma FlatLoads(g: Goroutine)
    ensures g.Sending? ==> LoadOf(g) == Load(1, 1, 0, 2)
    ensures g.Exiting? ==> LoadOf(g) == Load(1, 0, 0, 1)
    ensures g.Ended? ==> LoadOf(g) == Load(0, 0, 0, 0)
  {
  }

  lemma SpawnRootKeepsInv(s: State)
    requires Inv(s) && Enabled(s, SpawnRoot)
    ensures Inv(Step(s, SpawnRoot)) && Pending(Step(s, SpawnRoot)).work < Pending(s).work
  {
    hide Pending;
    SpawnRootPending(s);
  }

  lemma SpawnChildKeepsInv(s: State, i: nat)
    requires Inv(s) && Enabled(s, SpawnChild(i))
    ensures Inv(Step(s, SpawnChild(i))) && Pending(Step(s, SpawnChild(i))).work < Pending(s).work
  {
    hide Pending;
    CounterPositive(s, i);
    SpawnChildPending(s, i);
  }

  lemma MoveKeepsInv(s: State, e: Event)
    requires Inv(s) && Enabled(s, e) && (e.Act? || e.Send? || e.Done?)
    ensures Inv(Step(s, e)) && Pending(Step(s, e)).work < Pending(s).work
  {
    hide Pending;
    CounterPositive(s, e.i);
    MovePending(s, e);
  }

  lemma StepKeepsInv(s: State, e: Event)
    requires Inv(s) && Enabled(s, e)
    ensures Inv(Step(s, e)) && Remaining(Step(s, e)) < Remaining(s)
  {
    match e
    case SpawnRoot => SpawnRootKeepsInv(s);
    case SpawnChild(i) => SpawnChildKeepsInv(s, i);
    case Act(i) => MoveKeepsInv(s, e);
    case Send(i) => MoveKeepsInv(s, e);
    case Done(i) => MoveKeepsInv(s, e);
    case _ =>
  }

  /** What a panic would be: a send on the closed channel, or a WaitGroup counter below zero. */
  lemma PanicsExactly(s: State, e: Event)
    requires Enabled(s, e)
    ensures Step(s, e).panicked <==> s.panicked || (e.Send? && s.closed) || (e.Done? && s.wg <= 0)
  {
  }

  lemma StartInv(roots: seq<Task>)
    ensures Inv(Start(roots))
  {
    assert roots[0..] == roots;
  }

  lemma {:induction false} RunKeepsInv(s: State, es: seq<Event>)
    requires Inv(s) && ValidRun(s, es)
    ensures Inv(Run(s, es)) && Remaining(Run(s, es)) + |es| <= Remaining(s)
    decreases |es|
  {
    hide Inv, Remaining, Step, Enabled;
    if es != [] {
      StepKeepsInv(s, es[0]);
      RunKeepsInv(Step(s, es[0]), es[1..]);
    }
  }

  // ---------------------------------------------------------------- the guarantees

  /** The steps left until Deploy returns: of the tasks, of the caller and of the collector. */
  function Remaining(s: State): int {
    Pending(s).work + MainSteps(s.main) + if s.collector.Finished? then 0 else 1
  }

  /**
   For every forest of nested tasks and every schedule: nothing is ever sent on the closed channel and the
   counter never goes below zero; and Wait has returned only once every task has been spawned and has ended.
   */
  lemma WaitIsComplete(roots: seq<Task>, es: seq<Event>)
    requires ValidRun(Start(roots), es)
    ensures var s := Run(Start(roots), es);
            && !s.panicked
            && (s.main.Closing? || s.main.Draining? || s.main.Returned? ==>
                  |s.goroutines| == Size(roots) && forall i :: 0 <= i < |s.goroutines| ==> s.goroutines[i].Ended?)
  {
    StartInv(roots);
    RunKeepsInv(Start(roots), es);
    var s := Run(Start(roots), es);
    RootsKept(Start(roots), es);
    LiveCount(s.goroutines, |s.goroutines|);
    assert s.roots[|s.roots|..] == [];
  }

  lemma {:induction false} RootsKept(s: State, es: seq<Event>)
    requires ValidRun(s, es)
    ensures Run(s, es).roots == s.roots
    decreases |es|
  {
    if es != [] {
      RootsKept(Step(s, es[0]), es[1..]);
    }
  }

  /** When Deploy returns, its count is the number of actions that returned an error. */
  lemma CountIsExact(roots: seq<Task>, es: seq<Event>)
    requires ValidRun(Start(roots), es) && Run(Start(roots), es).main.Returned?
    ensures Run(Start(roots), es).failedCount == Failures(roots)
  {
    StartInv(roots);
    RunKeepsInv(Start(roots), es);
    RootsKept(Start(roots), es);
    var s := Run(Start(roots), es);
    LiveCount(s.goroutines, |s.goroutines|);
    assert s.roots[|s.roots|..] == [];
  }

  /** While the caller waits, any goroutine that has not ended can take its next step. */
  lemma SomeoneLives(s: State) returns (i: nat)
    requires Inv(s) && s.main.Waiting? && s.wg > 0
    ensures i < |s.goroutines| && !s.goroutines[i].Ended?
  {
    hide Loads, Forest;
    NoTasks(s.roots[s.started..]);
    LiveCount(s.goroutines, |s.goroutines|);
    i :| 0 <= i < |s.goroutines| && !s.goroutines[i].Ended?;
  }

  lemma SomeoneMoves(s: State)
    requires Inv(s) && s.main.Waiting? && s.wg > 0
    ensures exists e :: Enabled(s, e)
  {
    hide Inv, Pending, Loads;
    var i := SomeoneLives(s);
    var g := s.goroutines[i];
    if g.Acting? && g.spawned < |g.task.children| {
      assert Enabled(s, SpawnChild(i));
    } else if g.Acting? {
      assert Enabled(s, Act(i)) by { SpawnedBound(s, i); }
    } else if g.Sending? {
      assert Enabled(s, Send(i)) by { CollectorRanging(s); }
    } else {
      assert Enabled(s, Done(i));
    }
  }

  lemma CounterNotNegative(s: State)
    requires Inv(s) && s.main.Waiting?
    ensures s.wg >= 0
  {
    LiveCount(s.goroutines, |s.goroutines|);
    NoTasks(s.roots[s.started..]);
  }

  lemma SpawnedBound(s: State, i: nat)
    requires Inv(s) && i < |s.goroutines| && s.goroutines[i].Acting?
    ensures s.goroutines[i].spawned <= |s.goroutines[i].task.children|
  {
  }

  lemma CollectorRanging(s: State)
    requires Inv(s) && s.main.Waiting?
    ensures s.collector.Ranging?
  {
  }

  /** No reachable state is stuck before Deploy has returned. */
  lemma NeverStuck(roots: seq<Task>, es: seq<Event>)
    requires ValidRun(Start(roots), es) && !Run(Start(roots), es).main.Returned?
    ensures exists e :: Enabled(Run(Start(roots), es), e)
  {
    StartInv(roots);
    RunKeepsInv(Start(roots), es);
    var s := Run(Start(roots), es);
    if s.main.Spawning? {
      assert Enabled(s, SpawnRoot) || Enabled(s, StartCollector);
    } else if s.main.Waiting? && s.wg > 0 {
      SomeoneMoves(s);
    } else if s.main.Waiting? {
      CounterNotNegative(s);
      assert Enabled(s, PassWait);
    } else if s.main.Closing? {
      assert Enabled(s, CloseFailed);
    } else {
      assert Enabled(s, Return) || Enabled(s, CollectorEnds);
    }
  }

  /** Every schedule comes to an end: after at most four steps a task and five more. */
  lemma RunsAreBounded(roots: seq<Task>, es: seq<Event>)
    requires ValidRun(Start(roots), es)
    ensures |es| <= 4 * Size(roots) + 5
  {
    StartInv(roots);
    RunKeepsInv(Start(roots), es);
    var s := Run(Start(roots), es);
    LiveCount(s.goroutines, |s.goroutines|);
    WorkBySize(roots);
    assert roots[0..] == roots;
  }

  lemma {:induction false} WorkBySize(ts: seq<Task>)
    ensures Work(ts) == 4 * Size(ts)
  {
    if ts != [] {
      WorkBySize(ts[0].children);
      WorkBySize(ts[1..]);
    }
  }

  // ---------------------------------------------------------------- Deploy's own tasks

  /**
   One kind of server: whether looking up addresses and loading the files to deploy fail (for proxies, which load
   none, it does not), and which servers fail.
   */
  datatype Group = Group(lookupFails: bool, loadFails: bool, serverFails: seq<bool>)

  /** doDeploy: one task a server, none with children. */
  function Leaves(serverFails: seq<bool>): seq<Task> {
    seq(|serverFails|, k requires 0 <= k < |serverFails| => Task(serverFails[k], []))
  }

  /** The action that looks up a group and deploys to each of its servers in a task of its own. */
  function GroupTask(g: Group): Task {
    if g.lookupFails then Task(true, [])
    else if |g.serverFails| <= 0 then Task(false, [])  // errors.Wrap of a nil error is nil
    else if g.loadFails then Task(true, [])
    else Task(false, Leaves(g.serverFails))
  }

  /** The root tasks: servers and proxies for a Mattermost binary, load test machines for a load test binary. */
  function DeployTasks(mattermost: Option<(Group, Group)>, loadtests: Option<Group>): seq<Task> {
    (match mattermost
     case Some((apps, proxies)) => [GroupTask(apps), GroupTask(proxies)]
     case None => [])
    + if loadtests.Some? then [GroupTask(loadtests.value)] else []
  }

  function CountTrue(bs: seq<bool>): nat {
    if |bs| == 0 then 0 else (if bs[0] then 1 else 0) + CountTrue(bs[1..])
  }

  function GroupFailures(g: Group): nat {
    if g.lookupFails then 1
    else if |g.serverFails| == 0 then 0
    else if g.loadFails then 1
    else CountTrue(g.serverFails)
  }

  lemma {:induction false} LeafFailures(bs: seq<bool>)
    ensures Failures(Leaves(bs)) == CountTrue(bs)
  {
    if |bs| > 0 {
      LeafFailures(bs[1..]);
      assert Leaves(bs)[1..] == Leaves(bs[1..]);
    }
  }

  lemma GroupFailuresExact(g: Group, rest: seq<Task>)
    ensures Failures([GroupTask(g)] + rest) == GroupFailures(g) + Failures(rest)
  {
    hide Failures;
    LeafFailures(g.serverFails);
    NoFailures();
    var ts := [GroupTask(g)] + rest;
    FirstFailures(ts);
    assert ts[0] == GroupTask(g) && ts[1..] == rest;
  }

  lemma NoFailures()
    ensures Failures([]) == 0 && CountTrue([]) == 0
  {
  }

  /**
   The number Deploy reports: one for each group that could not be looked up or loaded, and one for each server
   that failed in the others. A group without any address counts as deployed, although the source means to
   report it: it wraps an error that is nil.
   */
  lemma DeployReports(mattermost: Option<(Group, Group)>, loadtests: Option<Group>, es: seq<Event>)
    requires var roots := DeployTasks(mattermost, loadtests);
             ValidRun(Start(roots), es) && Run(Start(roots), es).main.Returned?
    ensures Run(Start(DeployTasks(mattermost, loadtests)), es).failedCount
            == (if mattermost.Some? then GroupFailures(mattermost.value.0) + GroupFailures(mattermost.value.1) else 0)
               + (if loadtests.Some? then GroupFailures(loadtests.value) else 0)
  {
    hide Run, ValidRun, Failures, GroupTask, GroupFailures;
    CountIsExact(DeployTasks(mattermost, loadtests), es);
    var last := if loadtests.Some? then [GroupTask(loadtests.value)] else [];
    NoFailures();
    if loadtests.Some? {
      GroupFailuresExact(loadtests.value, []);
      assert [GroupTask(loadtests.value)] + [] == last;
    }
    if mattermost.Some? {
      var (apps, proxies) := mattermost.value;
      GroupFailuresExact(proxies, last);
      GroupFailuresExact(apps, [GroupTask(proxies)] + last);
      assert DeployTasks(mattermost, loadtests) == [GroupTask(apps)] + ([GroupTask(proxies)] + last);
    } else {
      assert DeployTasks(mattermost, loadtests) == last;
    }
  }
}
