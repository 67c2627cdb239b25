/**
 When five attempts are enough: each refused INSERT means that another machine registered between the SELECT and the
 INSERT, so that a machine can only fail if there are five others.
 */
module InstanceAttempts {
  import opened Collections
  import opened InstanceRegistry
  import opened InstanceProtocol

  /** A statement that fails for a reason of its own. */
  predicate IsFault(e: Event) {
    match e
    case SelectFails(_) => true
    case Insert(_, broken) => broken
    case ReadSeedFails(_) => true
    case _ => false
  }

  /** No statement fails and no row is removed. */
  ghost predicate CleanRun(s: State, es: seq<Event>)
    requires ValidRun(s, es)
    decreases |es|
  {
    es != [] ==> !IsFault(es[0]) && KeepsRows(s, es[0]) && CleanRun(Step(s, es[0]), es[1..])
  }

  predicate HasFailed(s: State, id: Id) {
    id in s.machines && s.machines[id].phase.Failed?
  }

  // ---------------------------------------------------------------- five machines never fail

  /** Every refused attempt of a machine stands for a row inserted by another one. */
  ghost predicate CountedFor(s: State, id: Id) {
    id in s.machines ==>
      match s.machines[id].phase
      case Selecting(attempts) => attempts <= |s.table|
      case Inserting(attempts, index) => attempts <= index <= |s.table|
      case Failed => |s.machines| > MAX_ATTEMPTS
      case _ => true
  }

  ghost predicate Counted(s: State) {
    s.table.Keys <= s.machines.Keys && forall id :: CountedFor(s, id)
  }

  lemma RefusedBecauseTaken(s: State, id: Id)
    requires Coordinated(s) && QueriedBefore(s) && Counted(s) && Enabled(s, Insert(id, false))
    requires !Accepts(s.table, id, s.machines[id].phase.index, false)
    ensures s.machines[id].phase.attempts + 1 <= |s.table| && id !in s.table
  {
    assert CountedFor(s, id) && Used(s.table, s.machines[id].phase.index);
  }

  /** With five rows of other machines there are six machines. */
  lemma SixMachines(s: State, id: Id)
    requires s.table.Keys <= s.machines.Keys && id in s.machines && id !in s.table && |s.table| >= MAX_ATTEMPTS
    ensures |s.machines| > MAX_ATTEMPTS
  {
    SubsetCount(s.table.Keys + {id}, s.machines.Keys);
  }

  lemma TableGrows(s: State, e: Event)
    requires Enabled(s, e) && KeepsRows(s, e)
    ensures |s.table| <= |Step(s, e).table| && |s.machines| <= |Step(s, e).machines|
  {
    SubsetCount(s.table.Keys, Step(s, e).table.Keys);
    SubsetCount(s.machines.Keys, Step(s, e).machines.Keys);
  }

  /** A machine that is not the one to move keeps its count while the table grows. */
  lemma OthersCounted(s: State, e: Event, id: Id)
    requires Enabled(s, e) && KeepsRows(s, e) && CountedFor(s, id) && id != e.id
    ensures CountedFor(Step(s, e), id)
  {
    TableGrows(s, e);
    hide Scans, Accepts, SeedOf, KeepsRows;
  }

  lemma OwnInsertCounted(s: State, id: Id)
    requires Coordinated(s) && QueriedBefore(s) && Counted(s) && Enabled(s, Insert(id, false))
    ensures CountedFor(Step(s, Insert(id, false)), id)
  {
    assert CountedFor(s, id);
    if !Accepts(s.table, id, s.machines[id].phase.index, false) {
      RefusedBecauseTaken(s, id);
      if s.machines[id].phase.attempts + 1 >= MAX_ATTEMPTS {
        SixMachines(s, id);
      }
    }
    hide Coordinated, QueriedBefore, Counted, Accepts;
  }

  lemma OwnSelectCounted(s: State, id: Id, index: int)
    requires Coordinated(s) && Counted(s) && Enabled(s, Select(id, index))
    ensures CountedFor(Step(s, Select(id, index)), id)
  {
    assert CountedFor(s, id);
    DenseScan(s.table, index);
    hide Coordinated, Scans;
  }

  /** The machine that moves. */
  lemma OwnCounted(s: State, e: Event)
    requires Coordinated(s) && QueriedBefore(s) && Counted(s) && Enabled(s, e) && !IsFault(e)
    ensures CountedFor(Step(s, e), e.id)
  {
    hide Coordinated, QueriedBefore, Counted, Scans, SeedOf, Accepts;
    match e
    case Select(id, index) => OwnSelectCounted(s, id, index);
    case Insert(id, _) => OwnInsertCounted(s, id);
    case ReadSeed(id) => SeedThere(s, id);
    case _ =>
  }

  lemma KeysStay(s: State, e: Event)
    requires Enabled(s, e) && s.table.Keys <= s.machines.Keys
    ensures Step(s, e).table.Keys <= Step(s, e).machines.Keys
  {
    hide Scans, SeedOf, Accepts;
  }

  lemma CountedStep(s: State, e: Event)
    requires Coordinated(s) && QueriedBefore(s) && Counted(s) && Enabled(s, e) && !IsFault(e) && KeepsRows(s, e)
    ensures Counted(Step(s, e))
  {
    OwnCounted(s, e);
    KeysStay(s, e);
    hide Coordinated, QueriedBefore, CountedFor, Enabled, Step, KeepsRows;
    forall id ensures CountedFor(Step(s, e), id) {
      if id != e.id {
        OthersCounted(s, e, id);
      }
    }
  }

  lemma SeedThere(s: State, id: Id)
    requires Coordinated(s) && Live(s, id)
    ensures SeedOf(s.table).Some?
  {
    assert id in s.table;
    assert |s.table| > 0 by { assert s.table.Keys != {}; }
    assert Used(s.table, 0);
    var z :| z in s.table && s.table[z].idx == 0;
    assert SeedIs(s.table, s.table[z].createAt);
  }

  lemma {:induction false} CountedRun(s: State, es: seq<Event>)
    requires Coordinated(s) && QueriedBefore(s) && Counted(s) && ValidRun(s, es) && CleanRun(s, es)
    ensures Counted(Run(s, es))
    decreases |es|
  {
    hide Coordinated, QueriedBefore, Counted, Enabled, Step, KeepsRows;
    if es != [] {
      KeepingStep(s, es[0]);
      CountedStep(s, es[0]);
      CountedRun(Step(s, es[0]), es[1..]);
    }
  }

  // ---------------------------------------------------------------- the sixth can

  lemma {:induction false} ThenClean(s: State, es: seq<Event>, fs: seq<Event>)
    requires ValidRun(s, es) && CleanRun(s, es) && ValidRun(Run(s, es), fs) && CleanRun(Run(s, es), fs)
    ensures ValidRun(s, es + fs) && CleanRun(s, es + fs) && Run(s, es + fs) == Run(Run(s, es), fs)
    decreases |es|
  {
    hide Enabled, Step, KeepsRows;
    if es == [] {
      assert es + fs == fs;
    } else {
      ThenClean(Step(s, es[0]), es[1..], fs);
      assert (es + fs)[1..] == es[1..] + fs;
    }
  }

  lemma OneClean(s: State, e: Event)
    requires Enabled(s, e) && !IsFault(e) && KeepsRows(s, e)
    ensures ValidRun(s, [e]) && CleanRun(s, [e]) && Run(s, [e]) == Step(s, e)
  {
    hide Enabled, Step, KeepsRows;
    assert [e][1..] == [];
    assert CleanRun(Step(s, e), []);
  }

  lemma Append(s: State, es: seq<Event>, e: Event) returns (fs: seq<Event>)
    requires ValidRun(s, es) && CleanRun(s, es) && Enabled(Run(s, es), e) && !IsFault(e) && KeepsRows(Run(s, es), e)
    ensures ValidRun(s, fs) && CleanRun(s, fs) && Run(s, fs) == Step(Run(s, es), e)
  {
    hide Enabled, Step, KeepsRows;
    OneClean(Run(s, es), e);
    ThenClean(s, es, [e]);
    fs := es + [e];
  }

  /** The k-th machine that is quicker than the one that is unlucky. */
  function Quick(k: nat): Id { seq(k + 1, _ => 'q') }

  const UNLUCKY: Id := ""

  /** k quick machines have registered, and the unlucky one is about to select again for the k-th time. */
  ghost predicate Chased(s: State, k: nat, phase: Phase) {
    && WellFormed(s.table) && Dense(s.table) && |s.table| == k
    && UNLUCKY in s.machines && UNLUCKY !in s.table && s.machines[UNLUCKY].phase == phase
    && |s.machines| == k + 1
    && (forall id :: id in s.machines || id in s.table ==> |id| <= k)
  }

  /** The unlucky machine and a quick one select the same index. */
  lemma BothSelect(s: State, k: nat) returns (es: seq<Event>)
    requires k < MAX_ATTEMPTS && Chased(s, k, Selecting(k))
    ensures ValidRun(s, es) && CleanRun(s, es)
    ensures Quick(k) != UNLUCKY && Quick(k) !in s.machines && Quick(k) !in s.table
    ensures Run(s, es) == State(s.table, s.machines[UNLUCKY := s.machines[UNLUCKY].(phase := Inserting(k, k))]
                                                   [Quick(k) := Machine(0, 0, Inserting(0, k))])
  {
    var quick := Quick(k);
    assert |quick| == k + 1;
    DenseScan(s.table, k);
    hide Dense, Scans, WellFormed;
    es := [];
    es := Append(s, es, Select(UNLUCKY, k));
    es := Append(s, es, Start(quick, 0, false));
    es := Append(s, es, Select(quick, k));
  }

  /** An INSERT of a taken index. */
  lemma Refused(s: State, k: nat) returns (es: seq<Event>)
    requires UNLUCKY in s.machines && s.machines[UNLUCKY].phase == Inserting(k, k) && Used(s.table, k) && k < MAX_ATTEMPTS
    ensures ValidRun(s, es) && CleanRun(s, es)
    ensures Run(s, es) == Goto(s, UNLUCKY, if k + 1 < MAX_ATTEMPTS then Selecting(k + 1) else Failed)
  {
    es := Append(s, [], Insert(UNLUCKY, false));
  }

  /** The unlucky machine selects, a quick one selects the same index and inserts it, and the unlucky one is refused. */
  lemma Chase(s: State, k: nat) returns (es: seq<Event>)
    requires k < MAX_ATTEMPTS && Chased(s, k, Selecting(k))
    ensures ValidRun(s, es) && CleanRun(s, es)
    ensures Chased(Run(s, es), k + 1, if k + 1 < MAX_ATTEMPTS then Selecting(k + 1) else Failed)
  {
    var quick := Quick(k);
    hide ValidRun, CleanRun, Run, Dense, WellFormed, Used, Enabled, Step, Quick, Goto;
    es := BothSelect(s, k);
    hide Chased;
    var t := Run(s, es);
    es := RegisterQuick(s, es, k, quick);
    var u := Run(s, es);
    assert u.machines.Keys == s.machines.Keys + {quick};
    assert u.machines[UNLUCKY].phase == Inserting(k, k);
    var fs := Refused(u, k);
    ThenClean(s, es, fs);
    es := es + fs;
    RoundDone(s, u, k, if k + 1 < MAX_ATTEMPTS then Selecting(k + 1) else Failed);
  }

  lemma RoundDone(s: State, u: State, k: nat, phase: Phase)
    requires Chased(s, k, Selecting(k)) && Quick(k) !in s.machines
    requires WellFormed(u.table) && Dense(u.table) && |u.table| == k + 1
    requires u.table.Keys == s.table.Keys + {Quick(k)} && u.machines.Keys == s.machines.Keys + {Quick(k)}
    ensures UNLUCKY in u.machines && Chased(Goto(u, UNLUCKY, phase), k + 1, phase)
  {
    assert |Quick(k)| == k + 1;
    hide WellFormed, Dense;
    assert |u.machines| == |u.machines.Keys| == |s.machines.Keys| + 1;
    var v := Goto(u, UNLUCKY, phase);
    assert v.machines.Keys == u.machines.Keys;
    assert |v.machines| == |v.machines.Keys|;
    forall id | id in v.machines || id in v.table ensures |id| <= k + 1 {
      assert id == Quick(k) || id in s.machines || id in s.table;
    }
  }

  /** A quick machine holding the next index of a dense table. */
  ghost predicate MayInsert(t: State, k: nat, quick: Id) {
    && WellFormed(t.table) && Dense(t.table) && |t.table| == k && quick !in t.table
    && quick in t.machines && t.machines[quick].phase == Inserting(0, k)
  }

  lemma QuickInserts(t: State, k: nat, quick: Id)
    requires MayInsert(t, k, quick)
    ensures Enabled(t, Insert(quick, false)) && KeepsRows(t, Insert(quick, false))
    ensures var u := Step(t, Insert(quick, false));
            && u.table == t.table[quick := NewRow(t.machines[quick].started, k)]
            && u.machines == t.machines[quick := t.machines[quick].(phase := Registered(k))]
  {
    assert !Used(t.table, k);
    hide Dense, WellFormed, Used;
  }

  lemma RowFits(t: Table, k: nat, quick: Id, row: Row)
    requires WellFormed(t) && Dense(t) && |t| == k == row.idx && quick !in t
    ensures var u := t[quick := row];
            WellFormed(u) && Dense(u) && |u| == k + 1 && Used(u, k) && u.Keys == t.Keys + {quick}
  {
    InsertKeepsDense(t, quick, row);
    assert !Used(t, k);
    assert t[quick := row][quick].idx == k;
  }

  /** The quick machine inserts the index. */
  lemma RegisterQuick(s: State, es: seq<Event>, k: nat, quick: Id) returns (fs: seq<Event>)
    requires ValidRun(s, es) && CleanRun(s, es) && MayInsert(Run(s, es), k, quick)
    ensures ValidRun(s, fs) && CleanRun(s, fs)
    ensures var t, u := Run(s, es), Run(s, fs);
            && WellFormed(u.table) && Dense(u.table) && |u.table| == k + 1 && Used(u.table, k)
            && u.table.Keys == t.table.Keys + {quick}
            && u.machines == t.machines[quick := t.machines[quick].(phase := Registered(k))]
  {
    hide ValidRun, CleanRun, Run, Dense, WellFormed, Used, Enabled, Step, KeepsRows;
    var t := Run(s, es);
    QuickInserts(t, k, quick);
    RowFits(t.table, k, quick, NewRow(t.machines[quick].started, k));
    fs := Append(s, es, Insert(quick, false));
  }

  /** As many rounds as it takes. */
  lemma {:induction false} Rounds(k: nat) returns (es: seq<Event>)
    requires k <= MAX_ATTEMPTS
    ensures var s := State(map[], map[]);
            && ValidRun(s, es) && CleanRun(s, es)
            && Chased(Run(s, es), k, if k < MAX_ATTEMPTS then Selecting(k) else Failed)
  {
    var s := State(map[], map[]);
    if k == 0 {
      es := Append(s, [], Start(UNLUCKY, 0, false));
    } else {
      es := Rounds(k - 1);
      var fs := Chase(Run(s, es), k - 1);
      ThenClean(s, es, fs);
      es := es + fs;
    }
  }

  // ---------------------------------------------------------------- the exact number

  /** In clean runs of at most n machines from an empty table, every machine's insertInstance succeeds in the end. */
  ghost predicate NobodyFails(n: int) {
    forall es, id | ValidRun(State(map[], map[]), es) && CleanRun(State(map[], map[]), es)
                    && |Run(State(map[], map[]), es).machines| <= n
      :: !HasFailed(Run(State(map[], map[]), es), id)
  }

  lemma StartCounted()
    ensures var s := State(map[], map[]); Coordinated(s) && QueriedBefore(s) && Counted(s)
  {
  }

  /** Five attempts are enough, as long as no statement fails and no row is removed, exactly for at most five machines. */
  lemma AttemptsSufficeExactly(n: nat)
    ensures NobodyFails(n) <==> n <= 5
  {
    var s := State(map[], map[]);
    hide ValidRun, CleanRun, Run, Counted;
    if n <= 5 {
      forall es, id | ValidRun(s, es) && CleanRun(s, es) && |Run(s, es).machines| <= n ensures !HasFailed(Run(s, es), id) {
        StartCounted();
        CountedRun(s, es);
        if HasFailed(Run(s, es), id) {
          FailureTakesSix(Run(s, es), id);
        }
      }
    } else {
      var es := Rounds(MAX_ATTEMPTS);
      assert HasFailed(Run(s, es), UNLUCKY) && |Run(s, es).machines| == 6;
    }
  }

  lemma FailureTakesSix(s: State, id: Id)
    requires Counted(s) && HasFailed(s, id)
    ensures |s.machines| >= 6
  {
    assert CountedFor(s, id);
  }
}
