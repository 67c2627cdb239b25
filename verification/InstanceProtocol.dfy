/**
 Any number of loadtest machines running NewInstance, heartbeat and Close against one registry, in
 every interleaving of their SQL statements.
 */
module InstanceProtocol {
  import opened Collections
  import opened InstanceRegistry

  datatype Phase =
    | Selecting(attempts: nat)              // about to run the slot query
    | Inserting(attempts: nat, index: int)  // holds a queried index, about to insert it
    | Registered(index: int)                // inserted, about to read the seed
    | Running(index: int, seed: int)        // NewInstance returned
    | Failed
    | Closed

  /** `beat` is the last time this machine's row was stamped with. */
  datatype Machine = Machine(started: int, beat: int, phase: Phase)

  datatype State = State(table: Table, machines: map<Id, Machine>)

  datatype Event =
    | Start(id: Id, now: int, pruned: bool)  // NewInstance up to the slot query; a prune that fails is only logged
    | Select(id: Id, index: int)
    | SelectFails(id: Id)
    | Insert(id: Id, broken: bool)           // broken: refused for a reason other than a conflict
    | ReadSeed(id: Id)
    | ReadSeedFails(id: Id)
    | Beat(id: Id, now: int)
    | Close(id: Id, deleted: bool)           // the final DELETE may fail

  ghost predicate Enabled(s: State, e: Event) {
    match e
    case Start(id, _, _) => id !in s.machines && id !in s.table
    case Select(id, index) => id in s.machines && s.machines[id].phase.Selecting? && Scans(s.table, index)
    case SelectFails(id) => id in s.machines && s.machines[id].phase.Selecting?
    case Insert(id, _) => id in s.machines && s.machines[id].phase.Inserting?
    case ReadSeed(id) => id in s.machines && s.machines[id].phase.Registered?
    case ReadSeedFails(id) => id in s.machines && s.machines[id].phase.Registered?
    case Beat(id, _) => id in s.machines && s.machines[id].phase.Running?
    case Close(id, _) => id in s.machines && s.machines[id].phase.Running?
  }

  function Goto(s: State, id: Id, phase: Phase): State
    requires id in s.machines
  {
    s.(machines := s.machines[id := s.machines[id].(phase := phase)])
  }

  /** getCoordinatedRandomSeed: the creation time of the row with index 0. */
  ghost predicate SeedIs(t: Table, seed: int) {
    exists id :: id in t && t[id].idx == 0 && t[id].createAt == seed
  }

  ghost function SeedOf(t: Table): Option<int> {
    if seed :| SeedIs(t, seed) then Some(seed) else None
  }

  ghost function Step(s: State, e: Event): State
    requires Enabled(s, e)
  {
    match e
    case Start(id, now, pruned) =>
      State(if pruned then Pruned(s.table, now) else s.table,
            s.machines[id := Machine(now, now, Selecting(0))])
    case Select(id, index) => Goto(s, id, Inserting(s.machines[id].phase.attempts, index))
    case SelectFails(id) => Goto(s, id, Failed)
    case Insert(id, broken) =>
      var m := s.machines[id];
      if Accepts(s.table, id, m.phase.index, broken) then
        Goto(s.(table := Inserted(s.table, id, NewRow(m.started, m.phase.index), broken)), id, Registered(m.phase.index))
      else if m.phase.attempts + 1 < MAX_ATTEMPTS then
        Goto(s, id, Selecting(m.phase.attempts + 1))
      else
        Goto(s, id, Failed)
    case ReadSeed(id) =>
      (match SeedOf(s.table)
       case Some(seed) => Goto(s, id, Running(s.machines[id].phase.index, seed))
       case None => Goto(s, id, Failed))
    case ReadSeedFails(id) => Goto(s, id, Failed)
    case Beat(id, now) =>
      if id in s.table then
        State(Touched(s.table, id, now),
              s.machines[id := s.machines[id].(beat := now)])
      else s
    case Close(id, deleted) =>
      Goto(if deleted then s.(table := Removed(s.table, id)) else s, id, Closed)
  }

  ghost predicate ValidRun(s: State, es: seq<Event>)
    decreases |es|
  {
    es != [] ==> Enabled(s, es[0]) && ValidRun(Step(s, es[0]), es[1..])
  }

  ghost function Run(s: State, es: seq<Event>): State
    requires ValidRun(s, es)
    decreases |es|
  {
    if es == [] then s else Run(Step(s, es[0]), es[1..])
  }

  /** Before any of our machines starts: a table left by others. */
  predicate Initial(s: State) {
    s.machines == map[] && WellFormed(s.table)
  }

  // ---------------------------------------------------------------- what every step keeps

  /** A machine between its INSERT and its Close. */
  predicate Live(s: State, id: Id) {
    id in s.machines && (s.machines[id].phase.Registered? || s.machines[id].phase.Running?)
  }

  function IndexOf(s: State, id: Id): int
    requires Live(s, id)
  {
    s.machines[id].phase.index
  }

  ghost predicate Inv(s: State) {
    && WellFormed(s.table)
    && (forall id :: id in s.machines && (s.machines[id].phase.Selecting? || s.machines[id].phase.Inserting?)
          ==> id !in s.table && s.machines[id].beat == s.machines[id].started)
    && (forall id :: id in s.machines && s.machines[id].phase.Inserting? ==> s.machines[id].phase.index >= 0)
    && (forall id :: Live(s, id) ==> IndexOf(s, id) >= 0)
    && (forall id :: Live(s, id) && id in s.table
          ==> s.table[id].idx == IndexOf(s, id) && s.table[id].activeAt == Stamp(s.machines[id].beat))
  }

  /** A new phase for one machine, the table unchanged, keeps the invariant if it fits the machine. */
  lemma GotoKeepsInv(s: State, id: Id, phase: Phase)
    requires Inv(s) && id in s.machines
    requires phase.Selecting? ==> s.machines[id].phase.Inserting?
    requires phase.Inserting? ==> s.machines[id].phase.Selecting? && phase.index >= 0
    requires !phase.Registered?
    requires phase.Running? ==> s.machines[id].phase.Registered? && phase.index == s.machines[id].phase.index
    ensures Inv(Goto(s, id, phase))
  {
    var t := Goto(s, id, phase);
    forall k | Live(t, k) ensures Live(s, k) && IndexOf(t, k) == IndexOf(s, k) {
    }
  }

  lemma InsertKeepsInv(s: State, id: Id)
    requires Inv(s) && Enabled(s, Insert(id, false))
    requires id !in s.table && !Used(s.table, s.machines[id].phase.index)
    ensures Inv(Step(s, Insert(id, false)))
  {
    var t := Step(s, Insert(id, false));
    forall k | Live(t, k) && k != id ensures Live(s, k) && IndexOf(t, k) == IndexOf(s, k) {
    }
  }

  lemma BeatKeepsInv(s: State, id: Id, now: int)
    requires Inv(s) && Enabled(s, Beat(id, now))
    ensures Inv(Step(s, Beat(id, now)))
  {
    var t := Step(s, Beat(id, now));
    forall k | Live(t, k) ensures Live(s, k) && IndexOf(t, k) == IndexOf(s, k) {
    }
  }

  lemma StartKeepsInv(s: State, id: Id, now: int, pruned: bool)
    requires Inv(s) && Enabled(s, Start(id, now, pruned))
    ensures Inv(Step(s, Start(id, now, pruned)))
  {
    var t := Step(s, Start(id, now, pruned));
    forall k | Live(t, k) ensures Live(s, k) && IndexOf(t, k) == IndexOf(s, k) {
    }
  }

  lemma CloseKeepsInv(s: State, id: Id, deleted: bool)
    requires Inv(s) && Enabled(s, Close(id, deleted))
    ensures Inv(Step(s, Close(id, deleted)))
  {
    var t := Step(s, Close(id, deleted));
    forall k | Live(t, k) ensures Live(s, k) && IndexOf(t, k) == IndexOf(s, k) {
    }
  }

  lemma StepKeepsInv(s: State, e: Event)
    requires Inv(s) && Enabled(s, e)
    ensures Inv(Step(s, e))
  {
    match e
    case Start(id, now, pruned) => StartKeepsInv(s, id, now, pruned);
    case Select(id, index) =>
      ScansFreeIndex(s.table, index);
      GotoKeepsInv(s, id, Inserting(s.machines[id].phase.attempts, index));
    case Insert(id, broken) =>
      if !broken && id !in s.table && !Used(s.table, s.machines[id].phase.index) {
        InsertKeepsInv(s, id);
      } else {
        GotoKeepsInv(s, id, Step(s, e).machines[id].phase);
      }
    case Beat(id, now) => BeatKeepsInv(s, id, now);
    case Close(id, deleted) => CloseKeepsInv(s, id, deleted);
    case _ => GotoKeepsInv(s, e.id, Step(s, e).machines[e.id].phase);
  }

  lemma {:induction false} RunKeepsInv(s: State, es: seq<Event>)
    requires Inv(s) && ValidRun(s, es)
    ensures Inv(Run(s, es))
    decreases |es|
  {
    if es != [] {
      StepKeepsInv(s, es[0]);
      RunKeepsInv(Step(s, es[0]), es[1..]);
    }
  }

  lemma DisjointRanges(i: int, j: int, perMachine: nat, entity: int)
    requires i != j
    requires i * perMachine <= entity < i * perMachine + perMachine
    ensures !(j * perMachine <= entity < j * perMachine + perMachine)
  {
    if i < j {
      MulNext(i, j, perMachine);
    } else {
      MulNext(j, i, perMachine);
    }
  }

  /**
   Allocator safety, over every run from any table: two live machines whose rows are still in the
   table hold different, non-negative indices and share no entity.
   */
  lemma RegisteredIndicesDistinct(s: State, es: seq<Event>, a: Id, b: Id, perMachine: nat, entity: int)
    requires Initial(s) && ValidRun(s, es)
    requires var t := Run(s, es); Live(t, a) && Live(t, b) && a in t.table && b in t.table && a != b
    ensures var t := Run(s, es);
            && IndexOf(t, a) >= 0 && IndexOf(t, a) != IndexOf(t, b)
            && !(IndexOf(t, a) * perMachine <= entity < IndexOf(t, a) * perMachine + perMachine
                 && IndexOf(t, b) * perMachine <= entity < IndexOf(t, b) * perMachine + perMachine)
  {
    RunKeepsInv(s, es);
    var t := Run(s, es);
    if IndexOf(t, a) * perMachine <= entity < IndexOf(t, a) * perMachine + perMachine {
      DisjointRanges(IndexOf(t, a), IndexOf(t, b), perMachine, entity);
    }
  }

  // ---------------------------------------------------------------- heartbeats in time

  /** No live machine's last recorded stamp is older than this when this step prunes. */
  ghost predicate Timely(bound: int, s: State, e: Event) {
    e.Start? && e.pruned ==>
      forall id :: Live(s, id) ==> e.now - s.machines[id].beat <= bound
  }

  ghost predicate TimelyRun(bound: int, s: State, es: seq<Event>)
    requires ValidRun(s, es)
    decreases |es|
  {
    es != [] ==> Timely(bound, s, es[0]) && TimelyRun(bound, Step(s, es[0]), es[1..])
  }

  ghost predicate AllListed(s: State) {
    forall id :: Live(s, id) ==> id in s.table
  }

  lemma TimelyStepKeepsListed(bound: int, s: State, e: Event)
    requires bound <= 119 * SECOND && Inv(s) && AllListed(s) && Enabled(s, e) && Timely(bound, s, e)
    ensures AllListed(Step(s, e))
  {
    var t := Step(s, e);
    forall id | Live(t, id) ensures id in t.table {
      if e.Start? && e.pruned {
        assert Live(s, id);
        var age := e.now - s.machines[id].beat;
        HeartbeatTolerance(age);
        assert !ExpiredAtAge(s.machines[id].beat, age);
      } else if !e.Insert? {
        assert Live(s, id);
      }
    }
  }

  lemma {:induction false} TimelyRunKeepsListed(bound: int, s: State, es: seq<Event>)
    requires bound <= 119 * SECOND && Inv(s) && AllListed(s) && ValidRun(s, es) && TimelyRun(bound, s, es)
    ensures AllListed(Run(s, es))
    decreases |es|
  {
    if es != [] {
      StepKeepsInv(s, es[0]);
      TimelyStepKeepsListed(bound, s, es[0]);
      hide Inv, AllListed, Enabled, Step, Timely;
      TimelyRunKeepsListed(bound, Step(s, es[0]), es[1..]);
    }
  }

  /**
   If every prune of the run finds every live machine's stamp at most 119 s old, then after every step all live
   machines still have their rows, and any two of them hold different indices and drive different entities.
   */
  lemma LiveMachinesNeverOverlap(s: State, es: seq<Event>, a: Id, b: Id, perMachine: nat, entity: int)
    requires Initial(s) && ValidRun(s, es) && TimelyRun(119 * SECOND, s, es)
    requires var t := Run(s, es); Live(t, a) && Live(t, b) && a != b
    ensures var t := Run(s, es);
            && a in t.table && t.table[a].idx == IndexOf(t, a)
            && IndexOf(t, a) != IndexOf(t, b)
            && !(IndexOf(t, a) * perMachine <= entity < IndexOf(t, a) * perMachine + perMachine
                 && IndexOf(t, b) * perMachine <= entity < IndexOf(t, b) * perMachine + perMachine)
  {
    TimelyRunKeepsListed(119 * SECOND, s, es);
    RunKeepsInv(s, es);
    RegisteredIndicesDistinct(s, es, a, b, perMachine, entity);
  }

  // ---------------------------------------------------------------- how late a heartbeat may be

  lemma {:induction false} ThenRun(bound: int, s: State, es: seq<Event>, fs: seq<Event>)
    requires ValidRun(s, es) && ValidRun(Run(s, es), fs)
    ensures ValidRun(s, es + fs) && Run(s, es + fs) == Run(Run(s, es), fs)
    ensures TimelyRun(bound, s, es) && TimelyRun(bound, Run(s, es), fs) ==> TimelyRun(bound, s, es + fs)
    decreases |es|
  {
    hide Enabled, Step, Timely;
    if es == [] {
      assert es + fs == fs;
    } else {
      ThenRun(bound, Step(s, es[0]), es[1..], fs);
      assert (es + fs)[1..] == es[1..] + fs;
    }
  }

  lemma OneStep(bound: int, s: State, e: Event)
    requires Enabled(s, e)
    ensures ValidRun(s, [e]) && Run(s, [e]) == Step(s, e)
    ensures Timely(bound, s, e) ==> TimelyRun(bound, s, [e])
  {
    hide Enabled, Step, Timely;
    assert [e][1..] == [];
    assert TimelyRun(bound, Step(s, e), []);
  }

  lemma Extend(bound: int, s: State, es: seq<Event>, e: Event)
    requires ValidRun(s, es) && Enabled(Run(s, es), e)
    ensures ValidRun(s, es + [e]) && Run(s, es + [e]) == Step(Run(s, es), e)
    ensures TimelyRun(bound, s, es) && Timely(bound, Run(s, es), e) ==> TimelyRun(bound, s, es + [e])
  {
    hide Enabled, Step, Timely;
    OneStep(bound, Run(s, es), e);
    ThenRun(bound, s, es, [e]);
  }

  /** A machine that finds the table empty, or prunes it empty, registers with index 0. */
  lemma RegisterAlone(bound: int, s: State, id: Id, now: int, pruned: bool) returns (es: seq<Event>)
    requires id !in s.machines && id !in s.table && Timely(bound, s, Start(id, now, pruned))
    requires (if pruned then Pruned(s.table, now) else s.table) == map[]
    ensures ValidRun(s, es) && TimelyRun(bound, s, es)
    ensures Run(s, es) == State(map[id := NewRow(now, 0)], s.machines[id := Machine(now, now, Registered(0))])
  {
    es := [];
    Extend(bound, s, es, Start(id, now, pruned));
    es := es + [Start(id, now, pruned)];
    assert Run(s, es).table == map[];
    NothingReturned();
    Extend(bound, s, es, Select(id, 0));
    es := es + [Select(id, 0)];
    Extend(bound, s, es, Insert(id, false));
    es := es + [Insert(id, false)];
  }

  lemma NothingReturned()
    ensures Scans(map[], 0)
  {
    assert forall v :: !Returns(map[], v);
  }

  /** A machine silent for 119 s and one nanosecond can be pruned, and its index handed out again. */
  lemma LateHeartbeatSharesIndex() returns (s: State, es: seq<Event>)
    ensures Initial(s) && ValidRun(s, es) && TimelyRun(119 * SECOND + 1, s, es)
    ensures var t := Run(s, es);
            Live(t, "a") && Live(t, "b") && "a" !in t.table && IndexOf(t, "a") == IndexOf(t, "b")
  {
    s := State(map[], map[]);
    var bound, early, late := 119 * SECOND + 1, SECOND - 1, 120 * SECOND;
    es := RegisterAlone(bound, s, "a", early, false);
    var t := Run(s, es);
    assert Expired(Stamp(early), late);
    assert Pruned(t.table, late) == map[];
    var fs := RegisterAlone(bound, t, "b", late, true);
    ThenRun(bound, s, es, fs);
    es := es + fs;
  }

  lemma {:induction false} LooserBound(b: int, c: int, s: State, es: seq<Event>)
    requires b <= c && ValidRun(s, es) && TimelyRun(b, s, es)
    ensures TimelyRun(c, s, es)
    decreases |es|
  {
    hide Enabled, Step;
    if es != [] {
      LooserBound(b, c, Step(s, es[0]), es[1..]);
    }
  }

  /** A run from any table in which every prune finds every live machine's stamp at most this old. */
  ghost predicate RunWithAges(bound: int, s: State, es: seq<Event>) {
    Initial(s) && ValidRun(s, es) && TimelyRun(bound, s, es)
  }

  ghost predicate NeverOverlaps(bound: int) {
    forall s, es, a, b | RunWithAges(bound, s, es) && Live(Run(s, es), a) && Live(Run(s, es), b) && a != b
      :: IndexOf(Run(s, es), a) != IndexOf(Run(s, es), b)
  }

  ghost predicate RowsNeverLost(bound: int) {
    forall s, es, a | RunWithAges(bound, s, es) && Live(Run(s, es), a) :: a in Run(s, es).table
  }

  /**
   The tolerance of the whole protocol: with stamps at most `bound` old at every prune, no run lets two live
   machines share an index, and no run loses a live machine's row, if and only if the bound is at most 119 s.
   */
  lemma AgeBoundIsExact(bound: int)
    ensures NeverOverlaps(bound) <==> bound <= 119 * SECOND
    ensures RowsNeverLost(bound) <==> bound <= 119 * SECOND
  {
    hide TimelyRun, Live, IndexOf;
    if bound <= 119 * SECOND {
      forall s, es, a | RunWithAges(bound, s, es) && Live(Run(s, es), a) ensures a in Run(s, es).table {
        RowKept(bound, s, es, a);
      }
      forall s, es, a, b | RunWithAges(bound, s, es) && Live(Run(s, es), a) && Live(Run(s, es), b) && a != b
        ensures IndexOf(Run(s, es), a) != IndexOf(Run(s, es), b)
      {
        LooserBound(bound, 119 * SECOND, s, es);
        LiveMachinesNeverOverlap(s, es, a, b, 0, 0);
      }
    } else {
      var s, es := LateHeartbeatSharesIndex();
      LooserBound(119 * SECOND + 1, bound, s, es);
      assert RunWithAges(bound, s, es) && Live(Run(s, es), "a") && Live(Run(s, es), "b");
    }
  }

  lemma RowKept(bound: int, s: State, es: seq<Event>, a: Id)
    requires bound <= 119 * SECOND && RunWithAges(bound, s, es) && Live(Run(s, es), a)
    ensures a in Run(s, es).table
  {
    TimelyRunKeepsListed(bound, s, es);
  }

  // ---------------------------------------------------------------- runs in which no row is removed

  ghost predicate KeepsRows(s: State, e: Event)
    requires Enabled(s, e)
  {
    s.table.Keys <= Step(s, e).table.Keys
  }

  ghost predicate KeepingRun(s: State, es: seq<Event>)
    requires ValidRun(s, es)
    decreases |es|
  {
    es != [] ==> KeepsRows(s, es[0]) && KeepingRun(Step(s, es[0]), es[1..])
  }

  /** The indices in use are exactly 0, 1, ..., |t| - 1. */
  ghost predicate Dense(t: Table) {
    forall index :: Used(t, index) <==> 0 <= index < |t|
  }

  /** On a dense table the query can only offer the next index. */
  lemma DenseScan(t: Table, index: int)
    requires WellFormed(t) && Dense(t)
    ensures Scans(t, index) <==> index == |t|
  {
    if t == map[] {
      assert forall v :: !Returns(t, v);
    } else {
      ScansExactly(t, index);
      assert Used(t, |t| - 1);
      assert !Used(t, |t|) && !Used(t, |t| + 1);
      if |t| >= 2 {
        assert Used(t, |t| - 2);
      }
    }
  }

  ghost predicate Coordinated(s: State) {
    && Inv(s) && AllListed(s) && Dense(s.table)
    && (forall id :: id in s.machines && s.machines[id].phase.Running? ==> SeedIs(s.table, s.machines[id].phase.seed))
  }

  lemma SeedUnique(t: Table, a: int, b: int)
    requires WellFormed(t) && SeedIs(t, a) && SeedIs(t, b)
    ensures a == b
  {
  }

  lemma InsertKeepsDense(t: Table, id: Id, row: Row)
    requires WellFormed(t) && Dense(t) && id !in t && row.idx == |t|
    ensures Dense(t[id := row])
  {
    var u := t[id := row];
    forall index ensures Used(u, index) <==> 0 <= index < |u| {
      if Used(u, index) {
        var k :| k in u && u[k].idx == index;
        assert k == id || (k in t && Used(t, index));
      }
      if 0 <= index < |t| {
        assert Used(t, index);
        var k :| k in t && t[k].idx == index;
        assert u[k].idx == index;
      } else if index == |t| {
        assert u[id].idx == index;
      }
    }
  }

  lemma SameRowsStayDense(t: Table, u: Table)
    requires t.Keys == u.Keys && (forall id :: id in t ==> u[id].idx == t[id].idx)
    requires Dense(t)
    ensures Dense(u)
  {
    assert |t| == |t.Keys| == |u.Keys| == |u|;
    forall index ensures Used(u, index) <==> Used(t, index) {
      if id :| id in t && t[id].idx == index {
        assert id in u && u[id].idx == index;
      }
      if id :| id in u && u[id].idx == index {
        assert id in t && t[id].idx == index;
      }
    }
  }

  /**
   Holding an index read from an older table is harmless: by the time of the INSERT the index is
   either still the next one, or taken. (The table only grew, so it was at most the current size.)
   */
  ghost predicate QueriedBefore(s: State) {
    forall id :: id in s.machines && s.machines[id].phase.Inserting? ==> 0 <= s.machines[id].phase.index <= |s.table|
  }

  /** A machine that starts running has just read the seed of the table. */
  lemma SeedsStay(s: State, e: Event)
    requires Coordinated(s) && Enabled(s, e) && Step(s, e).table == s.table
    ensures forall k :: k in Step(s, e).machines && Step(s, e).machines[k].phase.Running?
              ==> SeedIs(s.table, Step(s, e).machines[k].phase.seed)
  {
    hide Inv, Dense, AllListed, Scans, Returns;
    var t := Step(s, e);
    forall k | k in t.machines && t.machines[k].phase.Running? ensures SeedIs(s.table, t.machines[k].phase.seed) {
      if !(k in s.machines && s.machines[k].phase.Running?) {
        assert e.ReadSeed? && e.id == k;
        assert SeedOf(s.table).Some?;
      } else {
        assert t.machines[k].phase == s.machines[k].phase;
      }
    }
  }

  lemma QueryStaysBehind(s: State, e: Event)
    requires Inv(s) && Dense(s.table) && QueriedBefore(s) && Enabled(s, e) && Step(s, e).table == s.table
    ensures QueriedBefore(Step(s, e))
  {
    hide Dense, Scans;
    if e.Select? {
      DenseScan(s.table, e.index);
    }
  }

  /** A step that leaves the table alone leaves its rows behind every live machine. */
  lemma KeepingOtherStep(s: State, e: Event)
    requires Coordinated(s) && QueriedBefore(s) && Enabled(s, e) && Step(s, e).table == s.table
    ensures Coordinated(Step(s, e)) && QueriedBefore(Step(s, e))
  {
    hide Inv, Dense, Scans, Returns, QueriedBefore, SeedIs;
    StepKeepsInv(s, e);
    SeedsStay(s, e);
    QueryStaysBehind(s, e);
    var t := Step(s, e);
    forall k | Live(t, k) ensures k in t.table {
      assert Live(s, k);
    }
  }

  lemma KeepingInsert(s: State, id: Id)
    requires Coordinated(s) && QueriedBefore(s) && Enabled(s, Insert(id, false))
    requires id !in s.table && !Used(s.table, s.machines[id].phase.index)
    ensures Coordinated(Step(s, Insert(id, false))) && QueriedBefore(Step(s, Insert(id, false)))
  {
    var t := Step(s, Insert(id, false));
    StepKeepsInv(s, Insert(id, false));
    var index := s.machines[id].phase.index;
    assert index == |s.table|;
    InsertKeepsDense(s.table, id, t.table[id]);
    forall k | Live(t, k) ensures k in t.table {
      assert k == id || Live(s, k);
    }
    forall k | k in t.machines && t.machines[k].phase.Running? ensures SeedIs(t.table, t.machines[k].phase.seed) {
      var z :| z in s.table && s.table[z].idx == 0 && s.table[z].createAt == s.machines[k].phase.seed;
      assert t.table[z] == s.table[z];
    }
  }

  lemma KeepingBeat(s: State, id: Id, now: int)
    requires Coordinated(s) && QueriedBefore(s) && Enabled(s, Beat(id, now))
    ensures Coordinated(Step(s, Beat(id, now))) && QueriedBefore(Step(s, Beat(id, now)))
  {
    var t := Step(s, Beat(id, now));
    StepKeepsInv(s, Beat(id, now));
    SameRowsStayDense(s.table, t.table);
    assert |t.table| == |t.table.Keys| == |s.table.Keys| == |s.table|;
    forall k | Live(t, k) ensures k in t.table {
      assert Live(s, k);
    }
    forall k | k in t.machines && t.machines[k].phase.Running? ensures SeedIs(t.table, t.machines[k].phase.seed) {
      assert s.machines[k].phase == t.machines[k].phase;
      var z :| z in s.table && s.table[z].idx == 0 && s.table[z].createAt == s.machines[k].phase.seed;
      assert t.table[z].idx == 0 && t.table[z].createAt == s.machines[k].phase.seed;
    }
  }

  /** Only a prune or a Close removes rows; a step that removes none of them leaves the table as it was. */
  lemma NothingRemoved(s: State, e: Event)
    requires Enabled(s, e) && KeepsRows(s, e) && !e.Beat?
    requires e.Insert? ==> Step(s, e).table == s.table
    requires e.Close? ==> e.id in s.table
    ensures Step(s, e).table == s.table
  {
    var t := Step(s, e).table;
    assert t.Keys <= s.table.Keys;
  }

  lemma KeepingStep(s: State, e: Event)
    requires Coordinated(s) && QueriedBefore(s) && Enabled(s, e) && KeepsRows(s, e)
    ensures Coordinated(Step(s, e)) && QueriedBefore(Step(s, e))
  {
    if e.Insert? && Step(s, e).table != s.table {
      KeepingInsert(s, e.id);
    } else if e.Beat? {
      KeepingBeat(s, e.id, e.now);
    } else {
      NothingRemoved(s, e);
      KeepingOtherStep(s, e);
    }
  }

  lemma {:induction false} KeepingRunCoordinated(s: State, es: seq<Event>)
    requires Coordinated(s) && QueriedBefore(s) && ValidRun(s, es) && KeepingRun(s, es)
    ensures Coordinated(Run(s, es))
    decreases |es|
  {
    if es != [] {
      KeepingStep(s, es[0]);
      KeepingRunCoordinated(Step(s, es[0]), es[1..]);
    }
  }

  /** Everyone starts from an empty table and no row is ever removed. */
  ghost predicate FreshKeepingRun(es: seq<Event>) {
    var s := State(map[], map[]);
    ValidRun(s, es) && KeepingRun(s, es)
  }

  ghost function After(es: seq<Event>): State
    requires FreshKeepingRun(es)
  {
    Run(State(map[], map[]), es)
  }

  /**
   With no removals, in every interleaving: the registered indices are exactly 0..m-1, every machine
   whose NewInstance succeeded has the same seed, and the seed query never comes back empty for a
   machine that has inserted its row.
   */
  lemma NoRemovalsCoordinate(es: seq<Event>)
    requires FreshKeepingRun(es)
    ensures var t := After(es);
            && Dense(t.table)
            && (forall a, b :: a in t.machines && b in t.machines && t.machines[a].phase.Running? && t.machines[b].phase.Running?
                  ==> t.machines[a].phase.seed == t.machines[b].phase.seed)
            && (forall id :: Live(t, id) ==> SeedOf(t.table).Some?)
  {
    var s := State(map[], map[]);
    assert Coordinated(s);
    KeepingRunCoordinated(s, es);
    var t := After(es);
    forall a, b | a in t.machines && b in t.machines && t.machines[a].phase.Running? && t.machines[b].phase.Running?
      ensures t.machines[a].phase.seed == t.machines[b].phase.seed
    {
      SeedUnique(t.table, t.machines[a].phase.seed, t.machines[b].phase.seed);
    }
    forall id | Live(t, id) ensures SeedOf(t.table).Some? {
      assert id in t.table;
      assert |t.table| > 0 by { assert t.table.Keys != {}; }
      assert Used(t.table, 0);
      var z :| z in t.table && t.table[z].idx == 0;
      assert SeedIs(t.table, t.table[z].createAt);
    }
  }

  // ---------------------------------------------------------------- which users a machine drives

  /** Every machine runs with this configuration; order(seed) stands for rand.Perm(numUsers) after seeding. */
  datatype Config = Config(active: nat, numUsers: nat, randomize: bool, order: int -> seq<nat>)

  ghost predicate GoodConfig(c: Config) {
    forall seed :: IsPermutation(c.order(seed), c.numUsers)
  }

  /** RunTest's range check. */
  predicate PassesCheck(c: Config, index: int) {
    index * c.active + c.active <= c.numUsers
  }

  /** loginAsUsers: the user behind entity i of the machine. */
  function UserNum(c: Config, index: nat, seed: int, i: nat): nat
    requires GoodConfig(c) && PassesCheck(c, index) && i < c.active
  {
    assert 0 <= index * c.active;
    var entityNum: nat := i + index * c.active;
    if c.randomize then c.order(seed)[entityNum] else entityNum
  }

  lemma UsersDistinct(c: Config, a: nat, b: nat, seed: int, i: nat, j: nat)
    requires GoodConfig(c) && PassesCheck(c, a) && PassesCheck(c, b) && a != b
    requires i < c.active && j < c.active
    ensures UserNum(c, a, seed, i) != UserNum(c, b, seed, j)
  {
    DisjointRanges(a, b, c.active, i + a * c.active);
    assert IsPermutation(c.order(seed), c.numUsers);
  }

  /**
   Machines that registered without removals and pass the range check never select the same user,
   whether entities are taken in order or through the seeded permutation.
   */
  lemma NoUserSelectedTwice(es: seq<Event>, c: Config, a: Id, b: Id, i: nat, j: nat)
    requires FreshKeepingRun(es) && GoodConfig(c)
    requires var t := After(es);
             && a != b && a in t.machines && b in t.machines
             && t.machines[a].phase.Running? && t.machines[b].phase.Running?
             && PassesCheck(c, t.machines[a].phase.index) && PassesCheck(c, t.machines[b].phase.index)
    requires i < c.active && j < c.active
    ensures var t := After(es);
            && t.machines[a].phase.index >= 0 && t.machines[b].phase.index >= 0
            && UserNum(c, t.machines[a].phase.index, t.machines[a].phase.seed, i)
               != UserNum(c, t.machines[b].phase.index, t.machines[b].phase.seed, j)
  {
    NoRemovalsCoordinate(es);
    var s := State(map[], map[]);
    KeepingRunCoordinated(s, es);
    var t := After(es);
    assert Live(t, a) && Live(t, b);
    assert IndexOf(t, a) != IndexOf(t, b);
    UsersDistinct(c, IndexOf(t, a), IndexOf(t, b), t.machines[a].phase.seed, i, j);
  }

  lemma SharesFit(users: nat, replicas: nat, index: nat)
    requires index < replicas
    ensures index * (users / replicas) + users / replicas <= users
  {
    var share := users / replicas;
    assert users == replicas * share + users % replicas;
    MulNext(index, replicas, share);
  }

  /** With users / replicas entities each, every one of at most `replicas` registered machines passes the check. */
  lemma AllReplicasPass(es: seq<Event>, c: Config, replicas: nat, id: Id)
    requires FreshKeepingRun(es) && replicas > 0 && c.active == c.numUsers / replicas
    requires var t := After(es); |t.table| <= replicas && Live(t, id)
    ensures PassesCheck(c, IndexOf(After(es), id))
  {
    var s := State(map[], map[]);
    KeepingRunCoordinated(s, es);
    var t := After(es);
    var index := IndexOf(t, id);
    assert Used(t.table, index);
    SharesFit(c.numUsers, replicas, index);
  }
}
