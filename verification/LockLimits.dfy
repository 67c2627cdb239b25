/**
 What getBulkloadLock guarantees as it is used: whoever got true releases in the end, also a contender that only
 waited. Exclusion then depends on the number of contenders, and the limits are exact.
 */
module LockLimits {
  import opened Collections
  import opened BulkloadLock

  /** getBulkloadLock has returned true to p, by either branch, and p has not released yet. */
  predicate Holds(s: State, p: nat) {
    HoldsByWinning(s, p) || HoldsByWaiting(s, p)
  }

  predicate IsGone(s: State, p: nat) {
    Has(s, p) && s.contenders[p].Gone?
  }

  // ---------------------------------------------------------------- nobody gets past a lock that nobody cleared

  /** p was waved through, or will be if nothing changes. */
  predicate PastClear(s: State, p: nat) {
    || HoldsByWaiting(s, p)
    || (s.nickname.None? && Has(s, p) && (s.contenders[p].Polling? || s.contenders[p].Pausing?))
  }

  /** Whoever is past a cleared lock owes it to a contender that is gone. */
  ghost predicate ClearerGone(s: State) {
    (exists p: nat :: PastClear(s, p)) ==> exists g: nat :: IsGone(s, g)
  }

  lemma GoneStays(s: State, e: Event, g: nat)
    requires Enabled(s, e) && IsGone(s, g)
    ensures IsGone(Step(s, e), g)
  {
  }

  lemma ClearerGoneStep(s: State, e: Event)
    requires ClearerGone(s) && Enabled(s, e)
    ensures ClearerGone(Step(s, e))
  {
    var t := Step(s, e);
    if p: nat :| PastClear(t, p) {
      if q: nat :| PastClear(s, q) {
        var g: nat :| IsGone(s, g);
        GoneStays(s, e, g);
      } else {
        assert !PastClear(s, p);
        assert IsGone(t, e.p);
      }
    }
  }

  // ---------------------------------------------------------------- the nickname never names a waiting contender

  ghost predicate OnlyWritersRecorded(s: State) {
    forall p: nat :: Has(s, p) && s.nickname == Some(p) ==>
      s.contenders[p].Pausing? || s.contenders[p].Gone? || HoldsByWinning(s, p)
  }

  lemma OnlyWritersRecordedStep(s: State, e: Event)
    requires OnlyWritersRecorded(s) && Enabled(s, e)
    ensures OnlyWritersRecorded(Step(s, e))
  {
  }

  lemma {:induction false} WritersRecordedRun(s: State, es: seq<Event>)
    requires OnlyWritersRecorded(s) && ValidRun(s, es)
    ensures OnlyWritersRecorded(Run(s, es))
    decreases |es|
  {
    hide Enabled, Step, OnlyWritersRecorded;
    if es != [] {
      OnlyWritersRecordedStep(s, es[0]);
      WritersRecordedRun(Step(s, es[0]), es[1..]);
    }
  }

  /** In every run whatever, a contender that was waved through is not the one the nickname names. */
  lemma WaitingNeverRecorded(s: State, es: seq<Event>, p: nat)
    requires Initial(s) && ValidRun(s, es) && HoldsByWaiting(Run(s, es), p)
    ensures Run(s, es).nickname != Some(p)
  {
    WritersRecordedRun(s, es);
  }

  // ---------------------------------------------------------------- when the lock is orphaned

  /** A request that failed, or whose effect was lost. */
  predicate IsFailure(e: Event) {
    match e
    case EnterFails(_) => true
    case Write(_, _, ok) => !ok
    case CheckFails(_) => true
    case PollFails(_) => true
    case BeginReleaseFails(_) => true
    case Clear(_, applied) => !applied
    case _ => false
  }

  /** The nickname names a contender that will not do anything any more. */
  ghost predicate Orphaned(s: State) {
    exists p: nat :: IsGone(s, p) && s.nickname == Some(p)
  }

  /** The failures that leave a written nickname behind. */
  predicate Abandons(s: State, e: Event)
    requires Enabled(s, e)
  {
    match e
    case Write(_, applied, ok) => applied && !ok
    case CheckFails(p) => s.nickname == Some(p)
    case BeginReleaseFails(p) => s.nickname == Some(p)
    case Clear(p, applied) => !applied && s.nickname == Some(p)
    case _ => false
  }

  /** A step orphans the lock exactly if it is a failing request of the contender the nickname names afterwards. */
  lemma OrphanedExactly(s: State, e: Event)
    requires OnlyWritersRecorded(s) && !Orphaned(s) && Enabled(s, e)
    ensures Orphaned(Step(s, e)) <==> Abandons(s, e)
    ensures Abandons(s, e) ==> IsFailure(e)
  {
    var t := Step(s, e);
    if Abandons(s, e) {
      assert IsGone(t, e.p) && t.nickname == Some(e.p);
    } else {
      forall p: nat ensures !(IsGone(t, p) && t.nickname == Some(p)) {
        assert !(IsGone(s, p) && s.nickname == Some(p));
      }
    }
  }

  predicate FailureFree(es: seq<Event>) {
    forall i :: 0 <= i < |es| ==> !IsFailure(es[i])
  }

  /** The nickname is empty, or names a contender that is about to check or has won. */
  ghost predicate Attended(s: State) {
    s.nickname.Some? ==>
      var p := s.nickname.value;
      Has(s, p) && (s.contenders[p].Pausing? || HoldsByWinning(s, p))
  }

  lemma {:induction false} AttendedRun(s: State, es: seq<Event>)
    requires Attended(s) && ValidRun(s, es) && FailureFree(es)
    ensures Attended(Run(s, es))
    decreases |es|
  {
    if es != [] {
      assert !IsFailure(es[0]);
      AttendedStep(s, es[0]);
      hide Attended, Enabled, Step, IsFailure;
      AttendedRun(Step(s, es[0]), es[1..]);
    }
  }

  lemma AttendedStep(s: State, e: Event)
    requires Attended(s) && Enabled(s, e) && !IsFailure(e)
    ensures Attended(Step(s, e))
  {
  }

  /** Nobody can move the lock any more: it is taken, and everyone is waiting or gone. */
  ghost predicate Stuck(s: State) {
    s.nickname.Some? && forall p: nat :: Has(s, p) ==> s.contenders[p].Polling? || s.contenders[p].Gone?
  }

  lemma {:induction false} StuckForever(s: State, es: seq<Event>)
    requires Stuck(s) && ValidRun(s, es)
    ensures Stuck(Run(s, es)) && Run(s, es).nickname == s.nickname
    decreases |es|
  {
    if es != [] {
      StuckStep(s, es[0]);
      hide Stuck, Enabled, Step;
      StuckForever(Step(s, es[0]), es[1..]);
    }
  }

  lemma StuckStep(s: State, e: Event)
    requires Stuck(s) && Enabled(s, e)
    ensures Stuck(Step(s, e)) && Step(s, e).nickname == s.nickname
  {
  }

  /**
   Waiting for ever. Once the lock is taken and everyone waits or is gone, nobody gets true in any continuation,
   whoever joins. Starting from an empty nickname this does not happen without a failing request: the nickname then
   always names a contender that is about to check or has won, however many contenders there are and whoever releases.
   */
  lemma WaitingEndsUnlessFailure(s: State, es: seq<Event>)
    requires Initial(s) && ValidRun(s, es)
    ensures s.nickname.None? && FailureFree(es) ==> Attended(Run(s, es)) && !Orphaned(Run(s, es)) && !Stuck(Run(s, es))
    ensures Stuck(Run(s, es)) ==>
              forall fs, p: nat | ValidRun(Run(s, es), fs) :: !Holds(Run(Run(s, es), fs), p)
  {
    hide ValidRun, Run, Enabled;
    if s.nickname.None? && FailureFree(es) {
      AttendedRun(s, es);
    }
    if Stuck(Run(s, es)) {
      forall fs, p: nat | ValidRun(Run(s, es), fs) ensures !Holds(Run(Run(s, es), fs), p) {
        StuckForever(Run(s, es), fs);
      }
    }
  }

  /** One failing answer to an applied write is enough: the next contender waits for ever. */
  lemma FailedWriteOrphans() returns (s: State, es: seq<Event>)
    ensures Initial(s) && s.nickname.None? && ValidRun(s, es) && TimelyRun(PAUSE, s, es)
    ensures Orphaned(Run(s, es)) && Stuck(Run(s, es)) && Run(s, es).contenders == map[0 := Gone, 1 := Polling(0)]
  {
    s := State(None, 0, map[]);
    es := [];
    Extend(PAUSE, s, es, Enter(0));
    es := es + [Enter(0)];
    Extend(PAUSE, s, es, Write(0, true, false));
    es := es + [Write(0, true, false)];
    Extend(PAUSE, s, es, Enter(1));
    es := es + [Enter(1)];
    assert Run(s, es).contenders == map[0 := Gone, 1 := Polling(0)];
    assert IsGone(Run(s, es), 0) && Run(s, es).nickname == Some(0);
  }

  // ---------------------------------------------------------------- winners until two contenders are spent

  /** Gone, or on the way to erase a nickname without having won. */
  predicate Released(s: State, p: nat) {
    Has(s, p) && (s.contenders[p].Gone? || s.contenders[p] == Clearing(false))
  }

  ghost predicate TwoSpent(s: State) {
    exists x: nat, w: nat :: x != w && IsGone(s, x) && Released(s, w)
  }

  lemma TwoSpentStep(s: State, e: Event)
    requires TwoSpent(s) && Enabled(s, e)
    ensures TwoSpent(Step(s, e))
  {
    var x: nat, w: nat :| x != w && IsGone(s, x) && Released(s, w);
    GoneStays(s, e, x);
    assert Released(Step(s, e), w);
  }

  /** The timed protocol holds until a waved-through contender releases; by then two contenders are spent. */
  ghost predicate WinnersInv(s: State) {
    ClearerGone(s) && (Inv(s) || TwoSpent(s))
  }

  lemma FirstWavedRelease(s: State, e: Event)
    requires ClearerGone(s) && Enabled(s, e) && !OnlyWinnersRelease(s, e)
    ensures TwoSpent(Step(s, e))
  {
    assert PastClear(s, e.p);
    var g: nat :| IsGone(s, g);
    GoneStays(s, e, g);
    assert Released(Step(s, e), e.p);
  }

  lemma WinnersInvStep(s: State, e: Event)
    requires WinnersInv(s) && Enabled(s, e) && WritesWithin(PAUSE, s, e)
    ensures WinnersInv(Step(s, e))
  {
    hide Inv, TwoSpent, ClearerGone, Enabled, Step;
    ClearerGoneStep(s, e);
    if TwoSpent(s) {
      TwoSpentStep(s, e);
    } else if OnlyWinnersRelease(s, e) {
      StepKeepsInv(s, e);
    } else {
      FirstWavedRelease(s, e);
    }
  }

  lemma {:induction false} WinnersInvRun(s: State, es: seq<Event>)
    requires WinnersInv(s) && ValidRun(s, es) && TimelyRun(PAUSE, s, es)
    ensures WinnersInv(Run(s, es))
    decreases |es|
  {
    hide Enabled, Step, WinnersInv, WritesWithin;
    if es != [] {
      WinnersInvStep(s, es[0]);
      WinnersInvRun(Step(s, es[0]), es[1..]);
    }
  }

  lemma StartWinnersInv(s: State)
    requires Initial(s)
    ensures WinnersInv(s)
  {
  }

  lemma AtLeast(s: State, some: set<nat>)
    requires forall p :: p in some ==> Has(s, p)
    ensures |some| <= |s.contenders|
  {
    assert some <= s.contenders.Keys;
    SubsetCount(some, s.contenders.Keys);
  }

  /** Two winners at once take four contenders. */
  lemma TwoWinnersTakeFour(s: State, p: nat, q: nat)
    requires WinnersInv(s) && HoldsByWinning(s, p) && HoldsByWinning(s, q) && p != q
    ensures |s.contenders| >= 4
  {
    if TwoSpent(s) {
      var x: nat, w: nat :| x != w && IsGone(s, x) && Released(s, w);
      AtLeast(s, {p, q, x, w});
    }
  }

  /** Two holders at once take three. */
  lemma TwoHoldersTakeThree(s: State, p: nat, q: nat)
    requires WinnersInv(s) && Holds(s, p) && Holds(s, q) && p != q
    ensures |s.contenders| >= 3
  {
    if HoldsByWaiting(s, p) || HoldsByWaiting(s, q) {
      assert PastClear(s, p) || PastClear(s, q);
      var g: nat :| IsGone(s, g);
      AtLeast(s, {p, q, g});
    } else {
      TwoWinnersTakeFour(s, p, q);
    }
  }

  /** A winner whose id was erased takes three. */
  lemma ErasedWinnerTakesThree(s: State, p: nat)
    requires WinnersInv(s) && HoldsByWinning(s, p) && s.nickname != Some(p)
    ensures |s.contenders| >= 3
  {
    var x: nat, w: nat :| x != w && IsGone(s, x) && Released(s, w);
    AtLeast(s, {p, x, w});
  }

  // ---------------------------------------------------------------- writes that come too late, or never

  /** Without a write nobody gets anywhere. */
  ghost predicate NothingWritten(s: State) {
    forall p: nat :: Has(s, p) ==>
      match s.contenders[p]
      case Deciding(readAt) => readAt <= s.now
      case Polling(_) => s.nickname.Some?
      case Gone => true
      case _ => false
  }

  lemma {:induction false} NothingWrittenRun(bound: int, s: State, es: seq<Event>)
    requires bound <= 0 && NothingWritten(s) && ValidRun(s, es) && TimelyRun(bound, s, es)
    ensures NothingWritten(Run(s, es))
    decreases |es|
  {
    if es != [] {
      NothingWrittenStep(bound, s, es[0]);
      hide NothingWritten, Enabled, Step, WritesWithin;
      NothingWrittenRun(bound, Step(s, es[0]), es[1..]);
    }
  }

  lemma NothingWrittenStep(bound: int, s: State, e: Event)
    requires bound <= 0 && NothingWritten(s) && Enabled(s, e) && WritesWithin(bound, s, e)
    ensures NothingWritten(Step(s, e))
  {
  }

  ghost predicate AllWinnersRecorded(s: State) {
    forall p: nat :: HoldsByWinning(s, p) ==> s.nickname == Some(p)
  }

  /** A single contender is not disturbed by anyone, however slowly it writes. */
  lemma {:induction false} AloneRun(s: State, es: seq<Event>)
    requires AllWinnersRecorded(s) && ValidRun(s, es) && |Run(s, es).contenders| <= 1
    ensures AllWinnersRecorded(Run(s, es)) && |s.contenders| <= 1
    decreases |es|
  {
    if es != [] {
      RunGrows(Step(s, es[0]), es[1..]);
      AloneStep(s, es[0]);
      hide AllWinnersRecorded, Enabled, Step;
      AloneRun(Step(s, es[0]), es[1..]);
    }
  }

  lemma StepGrows(s: State, e: Event)
    requires Enabled(s, e)
    ensures s.contenders.Keys <= Step(s, e).contenders.Keys && |s.contenders| <= |Step(s, e).contenders|
  {
    SubsetCount(s.contenders.Keys, Step(s, e).contenders.Keys);
  }

  lemma {:induction false} RunGrows(s: State, es: seq<Event>)
    requires ValidRun(s, es)
    ensures |s.contenders| <= |Run(s, es).contenders|
    decreases |es|
  {
    hide Enabled, Step;
    if es != [] {
      StepGrows(s, es[0]);
      RunGrows(Step(s, es[0]), es[1..]);
    }
  }

  lemma AloneStep(s: State, e: Event)
    requires AllWinnersRecorded(s) && Enabled(s, e) && |Step(s, e).contenders| <= 1
    ensures AllWinnersRecorded(Step(s, e)) && |s.contenders| <= 1
  {
    var t := Step(s, e);
    StepGrows(s, e);
    forall p: nat | HoldsByWinning(t, p) ensures t.nickname == Some(p) {
      if !e.Tick? && e.p != p {
        AtLeast(t, {e.p, p});
        assert false;
      }
    }
  }

  // ---------------------------------------------------------------- the exact limits

  /** A run with at most n contenders whose writes are all within the bound, releases being free. */
  ghost predicate RunAmong(bound: int, n: int, s: State, es: seq<Event>) {
    Initial(s) && ValidRun(s, es) && TimelyRun(bound, s, es) && |Run(s, es).contenders| <= n
  }

  ghost predicate HoldersExclusive(bound: int, n: int) {
    forall s, es, p: nat, q: nat | RunAmong(bound, n, s, es) && Holds(Run(s, es), p) && Holds(Run(s, es), q) :: p == q
  }

  ghost predicate WinnersExclusiveAmong(bound: int, n: int) {
    forall s, es, p: nat, q: nat
      | RunAmong(bound, n, s, es) && HoldsByWinning(Run(s, es), p) && HoldsByWinning(Run(s, es), q) :: p == q
  }

  ghost predicate WinnersRecordedAmong(bound: int, n: int) {
    forall s, es, p: nat | RunAmong(bound, n, s, es) && HoldsByWinning(Run(s, es), p) :: Run(s, es).nickname == Some(p)
  }

  lemma {:induction false} LooserBound(b: int, c: int, s: State, es: seq<Event>)
    requires b <= c && ValidRun(s, es) && TimelyRun(b, s, es)
    ensures TimelyRun(c, s, es)
    decreases |es|
  {
    hide Enabled, Step;
    if es != [] {
      LooserBound(b, c, Step(s, es[0]), es[1..]);
    }
  }

  /** What is known of the end of a run, by its bound. */
  lemma EndOfRun(bound: int, n: int, s: State, es: seq<Event>)
    requires RunAmong(bound, n, s, es)
    ensures bound <= PAUSE ==> WinnersInv(Run(s, es))
    ensures bound <= 0 ==> NothingWritten(Run(s, es))
    ensures n <= 1 ==> AllWinnersRecorded(Run(s, es))
  {
    if bound <= PAUSE {
      LooserBound(bound, PAUSE, s, es);
      StartWinnersInv(s);
      WinnersInvRun(s, es);
    }
    if bound <= 0 {
      NothingWrittenRun(bound, s, es);
    }
    if n <= 1 {
      AloneRun(s, es);
    }
  }

  lemma FewTrueHolders(bound: int, n: int, s: State, es: seq<Event>, p: nat, q: nat)
    requires bound <= 0 || n <= 1 || (n <= 2 && bound <= PAUSE)
    requires RunAmong(bound, n, s, es) && Holds(Run(s, es), p) && Holds(Run(s, es), q)
    ensures p == q
  {
    var t := Run(s, es);
    EndOfRun(bound, n, s, es);
    if p != q {
      AtLeast(t, {p, q});
      if bound <= PAUSE && bound > 0 {
        TwoHoldersTakeThree(t, p, q);
      }
      assert false;
    }
  }

  lemma FewWinners(bound: int, n: int, s: State, es: seq<Event>, p: nat, q: nat)
    requires bound <= 0 || n <= 1 || (n <= 3 && bound <= PAUSE)
    requires RunAmong(bound, n, s, es) && HoldsByWinning(Run(s, es), p) && HoldsByWinning(Run(s, es), q)
    ensures p == q
  {
    var t := Run(s, es);
    EndOfRun(bound, n, s, es);
    if p != q {
      AtLeast(t, {p, q});
      if bound <= PAUSE && bound > 0 {
        TwoWinnersTakeFour(t, p, q);
      }
      assert false;
    }
  }

  /**
   Exclusion of everyone getBulkloadLock returned true to: it holds in all runs of at most n contenders whose
   writes land within `bound` of their reads exactly if nobody can write at all, or there is one contender only, or
   there are two and the bound is at most the pause. With the pause as the bound: exactly for n <= 2.
   */
  lemma HoldersExclusiveExactly(bound: int, n: nat)
    ensures HoldersExclusive(bound, n) <==> bound <= 0 || n <= 1 || (n <= 2 && bound <= 2_000_000_000)
  {
    if bound <= 0 || n <= 1 || (n <= 2 && bound <= PAUSE) {
      forall s, es, p: nat, q: nat | RunAmong(bound, n, s, es) && Holds(Run(s, es), p) && Holds(Run(s, es), q)
        ensures p == q
      {
        FewTrueHolders(bound, n, s, es, p, q);
      }
    } else if n >= 3 {
      var s, es := WavedAndWinner(bound);
      DisciplinedIsTimely(bound, s, es);
      assert RunAmong(bound, n, s, es) && Holds(Run(s, es), 1) && Holds(Run(s, es), 2);
    } else {
      var s, es := SlowWriter();
      LooserBound(PAUSE + 1, bound, s, es);
      assert RunAmong(bound, n, s, es) && Holds(Run(s, es), 0) && Holds(Run(s, es), 1);
    }
  }

  /** The same for those who won: with the pause as the bound, exactly for n <= 3. */
  lemma WinnersExclusiveExactly(bound: int, n: nat)
    ensures WinnersExclusiveAmong(bound, n) <==> bound <= 0 || n <= 1 || (n <= 3 && bound <= 2_000_000_000)
  {
    if bound <= 0 || n <= 1 || (n <= 3 && bound <= PAUSE) {
      forall s, es, p: nat, q: nat
        | RunAmong(bound, n, s, es) && HoldsByWinning(Run(s, es), p) && HoldsByWinning(Run(s, es), q)
        ensures p == q
      {
        FewWinners(bound, n, s, es, p, q);
      }
    } else if n >= 4 {
      var s, es, p, q := WavedReleaseBreaksWinners(bound);
      assert RunAmong(bound, n, s, es) && HoldsByWinning(Run(s, es), p) && HoldsByWinning(Run(s, es), q);
    } else {
      var s, es := SlowWriter();
      LooserBound(PAUSE + 1, bound, s, es);
      assert RunAmong(bound, n, s, es) && HoldsByWinning(Run(s, es), 0) && HoldsByWinning(Run(s, es), 1);
    }
  }

  /** And the nickname names every winner, with the pause as the bound, exactly for n <= 2. */
  lemma WinnersRecordedExactly(bound: int, n: nat)
    ensures WinnersRecordedAmong(bound, n) <==> bound <= 0 || n <= 1 || (n <= 2 && bound <= 2_000_000_000)
  {
    if bound <= 0 || n <= 1 || (n <= 2 && bound <= PAUSE) {
      forall s, es, p: nat | RunAmong(bound, n, s, es) && HoldsByWinning(Run(s, es), p)
        ensures Run(s, es).nickname == Some(p)
      {
        EndOfRun(bound, n, s, es);
        if bound > 0 && n > 1 && Run(s, es).nickname != Some(p) {
          ErasedWinnerTakesThree(Run(s, es), p);
        }
      }
    } else if n >= 3 {
      var s, es := WavedReleaseErases(bound);
      var t := Run(s, es);
      assert RunAmong(bound, n, s, es);
      assert HoldsByWinning(t, 2) && t.nickname != Some(2);
    } else {
      var s, es := SlowWriter();
      LooserBound(PAUSE + 1, bound, s, es);
      var t := Run(s, es);
      assert RunAmong(bound, n, s, es);
      assert HoldsByWinning(t, 0) && t.nickname != Some(0);
    }
  }
}
