/**
 What becomes of each machine, told by the events of the run: where its seed comes from, how often it tried, what a
 heartbeat and a Close do for the others, and which users it drives in the end.
 */
module InstanceOutcomes {
  import opened Collections
  import opened InstanceRegistry
  import opened InstanceProtocol

  // ---------------------------------------------------------------- told by the events so far

  ghost predicate StartedAt(es: seq<Event>, id: Id, now: int) {
    exists i :: 0 <= i < |es| && es[i].Start? && es[i].id == id && es[i].now == now
  }

  /** The number of INSERT statements a machine has sent. */
  function Inserts(es: seq<Event>, id: Id): nat {
    if |es| == 0 then 0
    else Inserts(es[..|es| - 1], id) + if es[|es| - 1].Insert? && es[|es| - 1].id == id then 1 else 0
  }

  /** One of its queries has failed. */
  predicate QueryFailed(es: seq<Event>, id: Id) {
    SelectFails(id) in es || ReadSeedFails(id) in es
  }

  ghost predicate ToldFor(es: seq<Event>, s: State, id: Id) {
    && Inserts(es, id) <= 5
    && (id !in s.machines ==> Inserts(es, id) == 0 && !QueryFailed(es, id))
    && (id in s.machines ==>
          && StartedAt(es, id, s.machines[id].started)
          && (QueryFailed(es, id) ==> s.machines[id].phase.Failed?)
          && match s.machines[id].phase
             case Selecting(attempts) => Inserts(es, id) == attempts < 5
             case Inserting(attempts, _) => Inserts(es, id) == attempts < 5
             case Failed => QueryFailed(es, id) || Inserts(es, id) == 5 || ReadSeed(id) in es
             case _ => Inserts(es, id) >= 1)
  }

  lemma OneMoreEvent(es: seq<Event>, e: Event, id: Id)
    ensures Inserts(es + [e], id) == Inserts(es, id) + if e.Insert? && e.id == id then 1 else 0
    ensures QueryFailed(es + [e], id) <==> QueryFailed(es, id) || e == SelectFails(id) || e == ReadSeedFails(id)
    ensures ReadSeed(id) in es + [e] <==> ReadSeed(id) in es || e == ReadSeed(id)
    ensures forall now :: StartedAt(es, id, now) ==> StartedAt(es + [e], id, now)
    ensures e.Start? && e.id == id ==> StartedAt(es + [e], id, e.now)
  {
    var all := es + [e];
    assert all[..|all| - 1] == es && all[|es|] == e;
    forall now | StartedAt(es, id, now) ensures StartedAt(all, id, now) {
      var i :| 0 <= i < |es| && es[i].Start? && es[i].id == id && es[i].now == now;
      assert all[i] == es[i];
    }
  }

  lemma ToldStep(es: seq<Event>, s: State, e: Event, id: Id)
    requires ToldFor(es, s, id) && Enabled(s, e)
    ensures ToldFor(es + [e], Step(s, e), id)
  {
    OneMoreEvent(es, e, id);
    hide Inserts, StartedAt, QueryFailed, Scans, SeedOf, Accepts;
  }

  lemma {:induction false} ToldRun(before: seq<Event>, s: State, es: seq<Event>, id: Id)
    requires ToldFor(before, s, id) && ValidRun(s, es)
    ensures ToldFor(before + es, Run(s, es), id)
    decreases |es|
  {
    if es == [] {
      assert before + es == before;
    } else {
      ToldStep(before, s, es[0], id);
      assert before + es == (before + [es[0]]) + es[1..];
      hide ToldFor, Enabled, Step;
      ToldRun(before + [es[0]], Step(s, es[0]), es[1..], id);
    }
  }

  /**
   The outcome of every machine, in every run from any table: it has sent at most five INSERTs and is trying again
   only before the fifth; a failed query ends it; and it has failed only by that, by a fifth refusal, or by a seed
   query that found no row.
   */
  lemma OutcomeOfEach(s: State, es: seq<Event>, id: Id)
    requires Initial(s) && ValidRun(s, es)
    ensures ToldFor(es, Run(s, es), id)
  {
    assert ToldFor([], s, id);
    ToldRun([], s, es, id);
    assert [] + es == es;
  }

  // ---------------------------------------------------------------- one machine's program

  /**
   The statements of one machine come in the order of its program, whatever the others do: a query and an INSERT until
   one is accepted or five were refused, then the seed query, then heartbeats until Close. No statement touches another
   machine.
   */
  lemma ProgramOrder(s: State, e: Event)
    requires Enabled(s, e)
    ensures forall k :: k in s.machines && k != e.id ==> k in Step(s, e).machines && Step(s, e).machines[k] == s.machines[k]
    ensures e.id !in s.machines ==> e.Start? && Step(s, e).machines[e.id].phase == Selecting(0)
    ensures e.id in s.machines ==>
              var next := Step(s, e).machines[e.id].phase;
              match s.machines[e.id].phase
              case Selecting(attempts) => (e.Select? && next == Inserting(attempts, e.index)) || (e.SelectFails? && next == Failed)
              case Inserting(attempts, index) =>
                e.Insert? && next in {Registered(index), if attempts < 4 then Selecting(attempts + 1) else Failed}
              case Registered(index) =>
                || (e.ReadSeed? && (next.Failed? || (next.Running? && next.index == index)))
                || (e.ReadSeedFails? && next == Failed)
              case Running(index, seed) => (e.Beat? && next == Running(index, seed)) || (e.Close? && next == Closed)
              case _ => false
  {
  }

  /** And the next of them is always possible, with any answer: no machine waits for another. */
  lemma NobodyWaits(s: State, id: Id)
    requires Inv(s) && id in s.machines
    ensures match s.machines[id].phase
            case Selecting(_) => Enabled(s, SelectFails(id)) && exists index :: Enabled(s, Select(id, index))
            case Inserting(_, _) => Enabled(s, Insert(id, true)) && Enabled(s, Insert(id, false))
            case Registered(_) => Enabled(s, ReadSeed(id)) && Enabled(s, ReadSeedFails(id))
            case Running(_, _) => (forall now :: Enabled(s, Beat(id, now))) && Enabled(s, Close(id, true)) && Enabled(s, Close(id, false))
            case _ => true
  {
    if s.machines[id].phase.Selecting? {
      SomeScan(s.table);
      var index :| Scans(s.table, index);
      assert Enabled(s, Select(id, index));
    }
  }

  lemma SomeScan(t: Table)
    ensures exists index :: Scans(t, index)
  {
    if v :| Returns(t, v) {
      assert Scans(t, if v.Some? then v.value else 0);
    } else {
      assert Scans(t, 0);
    }
  }

  // ---------------------------------------------------------------- where the seed comes from

  /** Every row carries the time its machine started at. */
  ghost predicate CreatedAtStart(s: State) {
    forall id :: id in s.table ==> id in s.machines && IsStamp(s.table[id].createAt, s.machines[id].started)
  }

  lemma CreatedStep(s: State, e: Event)
    requires CreatedAtStart(s) && Enabled(s, e)
    ensures CreatedAtStart(Step(s, e))
  {
    if e.Insert? {
      StampExact(s.machines[e.id].started, Stamp(s.machines[e.id].started));
    }
    hide IsStamp, Scans, SeedOf, Accepts;
  }

  lemma {:induction false} CreatedRun(s: State, es: seq<Event>)
    requires CreatedAtStart(s) && ValidRun(s, es)
    ensures CreatedAtStart(Run(s, es))
    decreases |es|
  {
    hide CreatedAtStart, Enabled, Step;
    if es != [] {
      CreatedStep(s, es[0]);
      CreatedRun(Step(s, es[0]), es[1..]);
    }
  }

  /**
   The seed, in every run without removals from an empty table: for every machine whose NewInstance succeeded it is
   the starting time of the machine that holds index 0, in milliseconds cut to whole seconds.
   */
  lemma SeedIsFirstStart(es: seq<Event>, id: Id) returns (first: Id, now: int)
    requires FreshKeepingRun(es)
    requires id in After(es).machines && After(es).machines[id].phase.Running?
    ensures var t := After(es);
            && first in t.table && t.table[first].idx == 0
            && StartedAt(es, first, now) && IsStamp(t.machines[id].phase.seed, now)
  {
    var s := State(map[], map[]);
    var t := After(es);
    KeepingRunCoordinated(s, es);
    CreatedRun(s, es);
    hide Run, ValidRun, KeepingRun;
    assert SeedIs(t.table, t.machines[id].phase.seed);
    first :| first in t.table && t.table[first].idx == 0 && t.table[first].createAt == t.machines[id].phase.seed;
    now := t.machines[first].started;
    OutcomeOfEach(s, es, first);
  }

  // ---------------------------------------------------------------- heartbeats and Close, for the others

  /** A heartbeat keeps the row through every prune of the next 119 s and touches no other row. */
  lemma HeartbeatSavesRow(s: State, id: Id, now: int, later: int)
    requires Enabled(s, Beat(id, now)) && id in s.table && later - now <= 119 * 1_000_000_000
    ensures var t := Step(s, Beat(id, now)).table;
            && t.Keys == s.table.Keys && IsStamp(t[id].activeAt, now)
            && t[id].idx == s.table[id].idx && t[id].createAt == s.table[id].createAt
            && (forall k :: k in t && k != id ==> t[k] == s.table[k])
            && id in Pruned(t, later)
  {
    StampExact(now, Stamp(now));
    HeartbeatTolerance(later - now);
    assert !ExpiredAtAge(now, later - now);
  }

  /** A Close whose DELETE succeeds frees the index and nothing else; one that fails leaves the table alone. */
  lemma CloseFreesIndex(s: State, id: Id, deleted: bool)
    requires Inv(s) && Enabled(s, Close(id, deleted)) && id in s.table
    ensures var t := Step(s, Close(id, deleted)).table;
            if deleted then
              && t.Keys == s.table.Keys - {id} && !Used(t, s.table[id].idx)
              && forall k :: k in t ==> t[k] == s.table[k]
            else t == s.table
    ensures !Live(Step(s, Close(id, deleted)), id)
  {
  }

  // ---------------------------------------------------------------- the users driven

  /** The users of the machine with this index, entity by entity. */
  function UsersOf(c: Config, index: nat, seed: int): seq<nat>
    requires GoodConfig(c) && PassesCheck(c, index)
  {
    seq(c.active, i requires 0 <= i < c.active => UserNum(c, index, seed, i))
  }

  lemma LowerPasses(c: Config, a: nat, b: nat)
    requires a <= b && PassesCheck(c, b)
    ensures PassesCheck(c, a) && a * c.active + c.active <= b * c.active + c.active <= c.numUsers
  {
    if a < b {
      MulNext(a, b, c.active);
    }
  }

  /** The users of machines 0, 1, ..., m - 1, one machine after the other. */
  function UsersOfFirst(c: Config, m: nat, seed: int): seq<nat>
    requires GoodConfig(c) && (m > 0 ==> PassesCheck(c, m - 1))
  {
    if m == 0 then []
    else
      if m > 1 then LowerPasses(c, m - 2, m - 1); UsersOfFirst(c, m - 1, seed) + UsersOf(c, m - 1, seed)
      else UsersOf(c, 0, seed)
  }

  /** One machine drives its own stretch: of all users in order, or of the seeded permutation. */
  lemma UsersOfOne(c: Config, a: nat, seed: int)
    requires GoodConfig(c) && PassesCheck(c, a)
    ensures 0 <= a * c.active <= a * c.active + c.active <= c.numUsers == |c.order(seed)|
    ensures UsersOf(c, a, seed) ==
            if c.randomize then c.order(seed)[a * c.active..a * c.active + c.active]
            else Numbers(a * c.active + c.active)[a * c.active..]
  {
    assert 0 <= a * c.active;
    assert IsPermutation(c.order(seed), c.numUsers);
  }

  /**
   Machines 0, 1, ..., m - 1 that pass the range check drive together exactly the users 0, 1, ..., m * active - 1 in
   order, or, when randomizing, exactly the first m * active of the seeded permutation in its order.
   */
  lemma {:induction false} UsersTogether(c: Config, m: nat, seed: int)
    requires GoodConfig(c) && (m > 0 ==> PassesCheck(c, m - 1))
    ensures 0 <= m * c.active && (m > 0 ==> m * c.active <= c.numUsers) && |c.order(seed)| == c.numUsers
    ensures m > 0 ==> UsersOfFirst(c, m, seed) == if c.randomize then c.order(seed)[..m * c.active] else Numbers(m * c.active)
    ensures m > 0 ==> Distinct(UsersOfFirst(c, m, seed))
    decreases m
  {
    assert IsPermutation(c.order(seed), c.numUsers);
    if m > 0 {
      UsersOfOne(c, m - 1, seed);
      var from := (m - 1) * c.active;
      assert m * c.active == from + c.active;
      if m > 1 {
        LowerPasses(c, m - 2, m - 1);
        UsersTogether(c, m - 1, seed);
      }
      hide UsersOf, PassesCheck;
      NextStretch(c.order(seed), from, from + c.active);
    }
  }

  /** A front and the stretch after it, of the permutation and of all numbers. */
  lemma NextStretch(p: seq<nat>, from: nat, to: nat)
    requires from <= to <= |p| && Distinct(p)
    ensures p[..from] + p[from..to] == p[..to] && Numbers(from) + Numbers(to)[from..] == Numbers(to)
    ensures from == 0 ==> p[from..to] == p[..to] && Numbers(to)[from..] == Numbers(to)
    ensures Distinct(p[..to]) && Distinct(Numbers(to))
  {
  }

  lemma SameSeed(es: seq<Event>, a: Id, other: Id)
    requires FreshKeepingRun(es)
    requires var t := After(es);
             a in t.machines && t.machines[a].phase.Running? && other in t.machines && t.machines[other].phase.Running?
    ensures var t := After(es);
            0 <= t.machines[a].phase.index < |t.table| && t.machines[a].phase.seed == t.machines[other].phase.seed
  {
    var s := State(map[], map[]);
    KeepingRunCoordinated(s, es);
    NoRemovalsCoordinate(es);
    var t := After(es);
    assert Live(t, a) && a in t.table;
    assert Used(t.table, IndexOf(t, a));
  }

  /**
   In every run without removals, each machine that passes the check drives the stretch of its index: in order, or of
   the permutation that any of the machines takes from its seed.
   */
  lemma RunDrives(es: seq<Event>, c: Config, a: Id, other: Id)
    requires FreshKeepingRun(es) && GoodConfig(c)
    requires var t := After(es);
             && a in t.machines && t.machines[a].phase.Running? && PassesCheck(c, t.machines[a].phase.index)
             && other in t.machines && t.machines[other].phase.Running?
    ensures var t := After(es);
            var own, permutation := t.machines[a].phase, c.order(t.machines[other].phase.seed);
            var from := own.index * c.active;
            && 0 <= own.index < |t.table| && 0 <= from <= from + c.active <= c.numUsers == |permutation|
            && UsersOf(c, own.index, own.seed) ==
               if c.randomize then permutation[from..from + c.active] else Numbers(from + c.active)[from..]
  {
    hide After, FreshKeepingRun, UsersOf;
    SameSeed(es, a, other);
    UsersOfOne(c, After(es).machines[a].phase.index, After(es).machines[a].phase.seed);
  }
}
