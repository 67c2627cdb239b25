/**
 The bulk-load lock: the admin account's nickname, read and written by any number of machines through
 an API that offers no atomic test-and-set. Each call of getBulkloadLock is one contender, known by the
 fresh id it would write; every API request is a separate step.
 */
module BulkloadLock {
  import opened Collections

  const PAUSE := 2_000_000_000  // every sleep, in nanoseconds

  datatype Phase =
    | Deciding(readAt: int)   // read an empty nickname, has not written yet
    | Pausing(wroteAt: int)   // wrote its id, sleeping before the second read
    | Polling(since: int)     // waiting for the nickname to clear, sleeping before the next read
    | Won                     // returned true because it read its own id back
    | Waved                   // returned true because it polled an empty nickname
    | Clearing(won: bool)     // in releaseBulkloadLock, read a nickname that was not empty
    | Gone                    // returned false, or released

  datatype State = State(nickname: Option<nat>, now: int, contenders: map<nat, Phase>)

  datatype Event =
    | Tick(elapsed: nat)
    | Enter(p: nat)
    | EnterFails(p: nat)
    | Write(p: nat, applied: bool, ok: bool)  // a failing request may still have been applied
    | Check(p: nat)
    | CheckFails(p: nat)
    | Poll(p: nat)
    | PollFails(p: nat)
    | BeginRelease(p: nat)
    | BeginReleaseFails(p: nat)
    | Clear(p: nat, applied: bool)

  predicate Has(s: State, p: nat) { p in s.contenders }

  predicate Enabled(s: State, e: Event) {
    match e
    case Tick(_) => true
    case Enter(p) => !Has(s, p) && s.nickname != Some(p)
    case EnterFails(p) => !Has(s, p) && s.nickname != Some(p)
    case Write(p, applied, ok) => Has(s, p) && s.contenders[p].Deciding? && (ok ==> applied)
    case Check(p) => Has(s, p) && s.contenders[p].Pausing? && s.now >= s.contenders[p].wroteAt + PAUSE
    case CheckFails(p) => Has(s, p) && s.contenders[p].Pausing? && s.now >= s.contenders[p].wroteAt + PAUSE
    case Poll(p) => Has(s, p) && s.contenders[p].Polling? && s.now >= s.contenders[p].since + PAUSE
    case PollFails(p) => Has(s, p) && s.contenders[p].Polling? && s.now >= s.contenders[p].since + PAUSE
    case BeginRelease(p) => Has(s, p) && (s.contenders[p].Won? || s.contenders[p].Waved?)
    case BeginReleaseFails(p) => Has(s, p) && (s.contenders[p].Won? || s.contenders[p].Waved?)
    case Clear(p, _) => Has(s, p) && s.contenders[p].Clearing?
  }

  function Goto(s: State, p: nat, phase: Phase): State {
    s.(contenders := s.contenders[p := phase])
  }

  function Step(s: State, e: Event): State
    requires Enabled(s, e)
  {
    match e
    case Tick(elapsed) => s.(now := s.now + elapsed)
    case Enter(p) => Goto(s, p, if s.nickname.None? then Deciding(s.now) else Polling(s.now))
    case Write(p, applied, ok) =>
      Goto(if applied then s.(nickname := Some(p)) else s, p, if ok then Pausing(s.now) else Gone)
    case Check(p) => Goto(s, p, if s.nickname == Some(p) then Won else Polling(s.now))
    case Poll(p) => Goto(s, p, if s.nickname.None? then Waved else Polling(s.now))
    case BeginRelease(p) => Goto(s, p, if s.nickname.None? then Gone else Clearing(s.contenders[p].Won?))
    case Clear(p, applied) => Goto(if applied then s.(nickname := None) else s, p, Gone)
    case _ => Goto(s, e.p, Gone)
  }

  predicate ValidRun(s: State, es: seq<Event>)
    decreases |es|
  {
    es != [] ==> Enabled(s, es[0]) && ValidRun(Step(s, es[0]), es[1..])
  }

  function Run(s: State, es: seq<Event>): State
    requires ValidRun(s, es)
    decreases |es|
  {
    if es == [] then s else Run(Step(s, es[0]), es[1..])
  }

  /** Before the first contender; the nickname may be anything, even left over from a crash. */
  predicate Initial(s: State) {
    s.contenders == map[]
  }

  /** The write that follows reading an empty nickname lands less than `bound` after the read. */
  predicate WritesWithin(bound: int, s: State, e: Event)
    requires Enabled(s, e)
  {
    e.Write? ==> s.now - s.contenders[e.p].readAt < bound
  }

  /** Nobody who was merely waved through by the polling loop releases the lock. */
  predicate OnlyWinnersRelease(s: State, e: Event)
    requires Enabled(s, e)
  {
    e.BeginRelease? ==> s.contenders[e.p].Won?
  }

  /** Every write lands within the bound; anyone who got true may release. */
  predicate TimelyRun(bound: int, s: State, es: seq<Event>)
    requires ValidRun(s, es)
    decreases |es|
  {
    es != [] ==> WritesWithin(bound, s, es[0]) && TimelyRun(bound, Step(s, es[0]), es[1..])
  }

  predicate DisciplinedRun(bound: int, s: State, es: seq<Event>)
    requires ValidRun(s, es)
    decreases |es|
  {
    es != [] ==>
      && WritesWithin(bound, s, es[0]) && OnlyWinnersRelease(s, es[0])
      && DisciplinedRun(bound, Step(s, es[0]), es[1..])
  }

  // ---------------------------------------------------------------- what the lock does guarantee

  /** Between returning through "we got the lock" and having released it. */
  predicate HoldsByWinning(s: State, p: nat) {
    Has(s, p) && (s.contenders[p].Won? || s.contenders[p] == Clearing(true))
  }

  predicate HoldsByWaiting(s: State, p: nat) {
    Has(s, p) && (s.contenders[p].Waved? || s.contenders[p] == Clearing(false))
  }

  ghost predicate Inv(s: State) {
    && (forall p: nat :: Has(s, p) && s.contenders[p].Deciding? ==> s.contenders[p].readAt <= s.now)
    && (forall p: nat :: Has(s, p) && s.contenders[p].Pausing? ==> s.contenders[p].wroteAt <= s.now)
    && (forall p: nat :: Has(s, p) && s.nickname == Some(p) ==>
          s.contenders[p].Pausing? || s.contenders[p].Gone? || HoldsByWinning(s, p))
    // whoever can still win has outwaited every undecided reader's read
    && (forall p: nat, q: nat :: Has(s, p) && s.nickname == Some(p) && s.contenders[p].Pausing?
                       && Has(s, q) && s.contenders[q].Deciding?
          ==> s.contenders[q].readAt <= s.contenders[p].wroteAt)
    // whoever has won is recorded, and every undecided reader is past its deadline
    && (forall p: nat :: HoldsByWinning(s, p) ==> s.nickname == Some(p))
    && (forall p: nat, q: nat :: HoldsByWinning(s, p) && Has(s, q) && s.contenders[q].Deciding?
          ==> s.now >= s.contenders[q].readAt + PAUSE)
    && (forall p: nat :: !(Has(s, p) && s.contenders[p] == Clearing(false)))
  }

  lemma TickKeepsInv(s: State, elapsed: nat)
    requires Inv(s)
    ensures Inv(Step(s, Tick(elapsed)))
  {
    var t := Step(s, Tick(elapsed));
    assert forall p: nat :: HoldsByWinning(t, p) ==> HoldsByWinning(s, p);
  }

  lemma LeavingKeepsInv(s: State, p: nat)
    requires Inv(s)
    ensures Inv(Goto(s, p, Gone))
  {
    var t := Goto(s, p, Gone);
    forall q: nat ensures HoldsByWinning(t, q) <==> q != p && HoldsByWinning(s, q) {
    }
  }

  lemma WaitingKeepsInv(s: State, p: nat, phase: Phase)
    requires Inv(s)
    requires (phase.Polling? && s.nickname != Some(p)) || (phase.Waved? && s.nickname.None?)
    ensures Inv(Goto(s, p, phase))
  {
    var t := Goto(s, p, phase);
    forall q: nat ensures HoldsByWinning(t, q) <==> q != p && HoldsByWinning(s, q) {
    }
  }

  lemma ReleasingKeepsInv(s: State, p: nat)
    requires Inv(s) && HoldsByWinning(s, p)
    ensures Inv(Goto(s, p, Clearing(true)))
  {
    var t := Goto(s, p, Clearing(true));
    forall q: nat ensures HoldsByWinning(t, q) <==> HoldsByWinning(s, q) {
    }
  }

  /** Steps that only move one contender on, without touching the nickname or winning anything. */
  lemma MoveKeepsInv(s: State, p: nat, phase: Phase)
    requires Inv(s)
    requires phase.Gone? || (phase.Polling? && s.nickname != Some(p)) || (phase.Waved? && s.nickname.None?)
             || (phase == Clearing(true) && HoldsByWinning(s, p))
    ensures Inv(Goto(s, p, phase))
  {
    hide Inv, Goto, HoldsByWinning;
    match phase
    case Gone => LeavingKeepsInv(s, p);
    case Clearing(_) => ReleasingKeepsInv(s, p);
    case _ => WaitingKeepsInv(s, p, phase);
  }

  lemma EnterKeepsInv(s: State, p: nat)
    requires Inv(s) && Enabled(s, Enter(p))
    ensures Inv(Step(s, Enter(p)))
  {
    if s.nickname.Some? {
      MoveKeepsInv(s, p, Polling(s.now));
    } else {
      var t := Step(s, Enter(p));
      assert forall q: nat :: !HoldsByWinning(t, q) by {
        assert forall q: nat :: HoldsByWinning(t, q) ==> HoldsByWinning(s, q);
      }
    }
  }

  /** A write in time proves that nobody has won: a winner would have outwaited this reader. */
  lemma NoWinnerYet(s: State, e: Event, q: nat)
    requires Inv(s) && e.Write? && Enabled(s, e) && WritesWithin(PAUSE, s, e)
    ensures !HoldsByWinning(s, q)
  {
  }

  lemma WriteKeepsInv(s: State, e: Event)
    requires Inv(s) && e.Write? && Enabled(s, e) && WritesWithin(PAUSE, s, e)
    ensures Inv(Step(s, e))
  {
    var t := Step(s, e);
    forall q: nat ensures !HoldsByWinning(t, q) {
      NoWinnerYet(s, e, q);
    }
    forall q: nat | Has(t, q) && t.contenders[q].Deciding? ensures q != e.p && s.contenders[q] == t.contenders[q] {
    }
  }

  lemma CheckKeepsInv(s: State, p: nat)
    requires Inv(s) && Enabled(s, Check(p))
    ensures Inv(Step(s, Check(p)))
  {
    if s.nickname != Some(p) {
      MoveKeepsInv(s, p, Polling(s.now));
    } else {
      var t := Step(s, Check(p));
      assert forall q: nat :: HoldsByWinning(t, q) ==> q == p by {
        assert forall q: nat :: HoldsByWinning(t, q) ==> q == p || HoldsByWinning(s, q);
      }
    }
  }

  lemma ClearKeepsInv(s: State, p: nat, applied: bool)
    requires Inv(s) && Enabled(s, Clear(p, applied))
    ensures Inv(Step(s, Clear(p, applied)))
  {
    var t := Step(s, Clear(p, applied));
    assert s.contenders[p] == Clearing(true);
    assert forall q: nat :: HoldsByWinning(t, q) ==> HoldsByWinning(s, q) && q != p;
  }

  lemma StepKeepsInv(s: State, e: Event)
    requires Inv(s) && Enabled(s, e) && WritesWithin(PAUSE, s, e) && OnlyWinnersRelease(s, e)
    ensures Inv(Step(s, e))
  {
    match e
    case Tick(elapsed) => TickKeepsInv(s, elapsed);
    case Enter(p) => EnterKeepsInv(s, p);
    case Write(_, _, _) => WriteKeepsInv(s, e);
    case Check(p) => CheckKeepsInv(s, p);
    case Clear(p, applied) => ClearKeepsInv(s, p, applied);
    case _ => MoveKeepsInv(s, e.p, Step(s, e).contenders[e.p]);
  }

  lemma {:induction false} RunKeepsInv(s: State, es: seq<Event>)
    requires Inv(s) && ValidRun(s, es) && DisciplinedRun(PAUSE, s, es)
    ensures Inv(Run(s, es))
    decreases |es|
  {
    if es != [] {
      StepKeepsInv(s, es[0]);
      RunKeepsInv(Step(s, es[0]), es[1..]);
    }
  }

  /**
   Timed mutual exclusion, in every interleaving of any number of contenders: if each write lands less
   than two seconds after its read, at most one contender at a time holds the lock through the "we got
   the lock" branch. Releases by such holders are allowed; none by contenders the polling loop waved
   through. (A run without any release is a special case.)
   */
  lemma WinnersExclusive(s: State, es: seq<Event>, p: nat, q: nat)
    requires Initial(s) && ValidRun(s, es) && DisciplinedRun(2_000_000_000, s, es)
    requires HoldsByWinning(Run(s, es), p) && HoldsByWinning(Run(s, es), q)
    ensures p == q
  {
    RunKeepsInv(s, es);
  }

  /** Of everyone getBulkloadLock returned true to, exactly the winners are recorded in the nickname. */
  lemma RecordedIffWinner(s: State, es: seq<Event>, p: nat)
    requires Initial(s) && ValidRun(s, es) && DisciplinedRun(2_000_000_000, s, es)
    requires HoldsByWinning(Run(s, es), p) || HoldsByWaiting(Run(s, es), p)
    ensures Run(s, es).nickname == Some(p) <==> HoldsByWinning(Run(s, es), p)
  {
    RunKeepsInv(s, es);
  }

  // ---------------------------------------------------------------- how far the guarantee reaches

  lemma {:induction false} ThenRun(bound: int, s: State, es: seq<Event>, fs: seq<Event>)
    requires ValidRun(s, es) && ValidRun(Run(s, es), fs)
    ensures ValidRun(s, es + fs) && Run(s, es + fs) == Run(Run(s, es), fs)
    ensures DisciplinedRun(bound, s, es) && DisciplinedRun(bound, Run(s, es), fs) ==> DisciplinedRun(bound, s, es + fs)
    ensures TimelyRun(bound, s, es) && TimelyRun(bound, Run(s, es), fs) ==> TimelyRun(bound, s, es + fs)
    decreases |es|
  {
    hide Enabled, Step, WritesWithin, OnlyWinnersRelease;
    if es == [] {
      assert es + fs == fs;
    } else {
      ThenRun(bound, Step(s, es[0]), es[1..], fs);
      assert (es + fs)[1..] == es[1..] + fs;
    }
  }

  lemma OneStep(bound: int, s: State, e: Event)
    requires Enabled(s, e)
    ensures ValidRun(s, [e]) && Run(s, [e]) == Step(s, e)
    ensures WritesWithin(bound, s, e) && OnlyWinnersRelease(s, e) ==> DisciplinedRun(bound, s, [e])
    ensures WritesWithin(bound, s, e) ==> TimelyRun(bound, s, [e])
  {
    assert [e][1..] == [];
  }

  lemma Extend(bound: int, s: State, es: seq<Event>, e: Event)
    requires ValidRun(s, es) && Enabled(Run(s, es), e)
    ensures ValidRun(s, es + [e]) && Run(s, es + [e]) == Step(Run(s, es), e)
    ensures DisciplinedRun(bound, s, es) && WritesWithin(bound, Run(s, es), e) && OnlyWinnersRelease(Run(s, es), e)
            ==> DisciplinedRun(bound, s, es + [e])
    ensures TimelyRun(bound, s, es) && WritesWithin(bound, Run(s, es), e) ==> TimelyRun(bound, s, es + [e])
  {
    OneStep(bound, Run(s, es), e);
    ThenRun(bound, s, es, [e]);
  }

  lemma {:induction false} DisciplinedIsTimely(bound: int, s: State, es: seq<Event>)
    requires ValidRun(s, es) && DisciplinedRun(bound, s, es)
    ensures TimelyRun(bound, s, es)
    decreases |es|
  {
    if es != [] {
      DisciplinedIsTimely(bound, Step(s, es[0]), es[1..]);
    }
  }

  /** A contender that finds the lock free and is alone wins it. */
  lemma WinAlone(bound: int, s: State, p: nat) returns (es: seq<Event>)
    requires bound > 0 && s.nickname.None? && !Has(s, p)
    ensures ValidRun(s, es) && DisciplinedRun(bound, s, es)
    ensures Run(s, es) == State(Some(p), s.now + PAUSE, s.contenders[p := Won])
  {
    es := [];
    Extend(bound, s, es, Enter(p));
    es := es + [Enter(p)];
    Extend(bound, s, es, Write(p, true, true));
    es := es + [Write(p, true, true)];
    Extend(bound, s, es, Tick(PAUSE));
    es := es + [Tick(PAUSE)];
    Extend(bound, s, es, Check(p));
    es := es + [Check(p)];
  }

  /** Contender 0 wins, contender 1 waits, 0 releases, and 1 is waved through. */
  lemma WavedThrough(bound: int) returns (s: State, es: seq<Event>)
    requires bound > 0
    ensures Initial(s) && ValidRun(s, es) && DisciplinedRun(bound, s, es)
    ensures var t := Run(s, es); t.nickname.None? && t.contenders == map[0 := Gone, 1 := Waved]
  {
    s := State(None, 0, map[]);
    es := WinAlone(bound, s, 0);
    Extend(bound, s, es, Enter(1));
    es := es + [Enter(1)];
    Extend(bound, s, es, BeginRelease(0));
    es := es + [BeginRelease(0)];
    Extend(bound, s, es, Clear(0, true));
    es := es + [Clear(0, true)];
    Extend(bound, s, es, Tick(PAUSE));
    es := es + [Tick(PAUSE)];
    Extend(bound, s, es, Poll(1));
    es := es + [Poll(1)];
    assert Run(s, es).contenders == map[0 := Gone, 1 := Waved];
  }

  /** Contender 2 then wins, although 1 has got true and has not released. */
  lemma WavedAndWinner(bound: int) returns (s: State, es: seq<Event>)
    requires bound > 0
    ensures Initial(s) && ValidRun(s, es) && DisciplinedRun(bound, s, es)
    ensures var t := Run(s, es); t.nickname == Some(2) && t.contenders == map[0 := Gone, 1 := Waved, 2 := Won]
  {
    s, es := WavedThrough(bound);
    var fs := WinAlone(bound, Run(s, es), 2);
    ThenRun(bound, s, es, fs);
    es := es + fs;
    assert Run(s, es).contenders == map[0 := Gone, 1 := Waved, 2 := Won];
  }

  /**
   getBulkloadLock as a whole is not a lock: with three contenders it can have returned true to two of them at
   once, one of them through the polling loop, which writes no nickname.
   */
  lemma NotExclusiveAcrossReleases() returns (s: State, es: seq<Event>, p: nat, q: nat)
    ensures Initial(s) && ValidRun(s, es) && DisciplinedRun(PAUSE, s, es) && |Run(s, es).contenders| == 3
    ensures p != q && HoldsByWaiting(Run(s, es), p) && HoldsByWinning(Run(s, es), q)
  {
    s, es := WavedAndWinner(PAUSE);
    p, q := 1, 2;
  }

  /** A waved-through contender releases, and erases the id of the winner. */
  lemma WavedReleaseErases(bound: int) returns (s: State, es: seq<Event>)
    requires bound > 0
    ensures Initial(s) && ValidRun(s, es) && TimelyRun(bound, s, es)
    ensures var t := Run(s, es); t.nickname.None? && t.contenders == map[0 := Gone, 1 := Gone, 2 := Won]
  {
    s, es := WavedAndWinner(bound);
    DisciplinedIsTimely(bound, s, es);
    Extend(bound, s, es, BeginRelease(1));
    es := es + [BeginRelease(1)];
    Extend(bound, s, es, Clear(1, true));
    es := es + [Clear(1, true)];
    assert Run(s, es).contenders == map[0 := Gone, 1 := Gone, 2 := Won];
  }

  /** So that a fourth contender wins as well, and even two winners hold the lock together. */
  lemma WavedReleaseBreaksWinners(bound: int) returns (s: State, es: seq<Event>, p: nat, q: nat)
    requires bound > 0
    ensures Initial(s) && ValidRun(s, es) && TimelyRun(bound, s, es) && |Run(s, es).contenders| == 4
    ensures p != q && HoldsByWinning(Run(s, es), p) && HoldsByWinning(Run(s, es), q)
  {
    s, es := WavedReleaseErases(bound);
    var fs := WinAlone(bound, Run(s, es), 3);
    DisciplinedIsTimely(bound, Run(s, es), fs);
    ThenRun(bound, s, es, fs);
    es := es + fs;
    assert Run(s, es).contenders == map[0 := Gone, 1 := Gone, 2 := Won, 3 := Won];
    p, q := 2, 3;
  }

  ghost predicate ExclusiveWhenWritesWithin(bound: int) {
    forall s, es, p: nat, q: nat
      | Initial(s) && ValidRun(s, es) && DisciplinedRun(bound, s, es)
        && HoldsByWinning(Run(s, es), p) && HoldsByWinning(Run(s, es), q)
      :: p == q
  }

  lemma {:induction false} TighterBound(b: int, c: int, s: State, es: seq<Event>)
    requires b <= c && ValidRun(s, es) && DisciplinedRun(b, s, es)
    ensures DisciplinedRun(c, s, es)
    decreases |es|
  {
    if es != [] {
      TighterBound(b, c, Step(s, es[0]), es[1..]);
    }
  }

  /** Two readers of an empty nickname; the first writes at once and wins. */
  lemma FirstOfTwoReaders(bound: int) returns (s: State, es: seq<Event>)
    requires bound > 0
    ensures Initial(s) && ValidRun(s, es) && DisciplinedRun(bound, s, es)
    ensures Run(s, es) == State(Some(0), PAUSE, map[0 := Won, 1 := Deciding(0)])
  {
    s := State(None, 0, map[]);
    es := [];
    Extend(bound, s, es, Enter(0));
    es := es + [Enter(0)];
    Extend(bound, s, es, Enter(1));
    es := es + [Enter(1)];
    Extend(bound, s, es, Write(0, true, true));
    es := es + [Write(0, true, true)];
    Extend(bound, s, es, Tick(PAUSE));
    es := es + [Tick(PAUSE)];
    Extend(bound, s, es, Check(0));
    es := es + [Check(0)];
    assert Run(s, es).contenders == map[0 := Won, 1 := Deciding(0)];
  }

  /** The second writes two full seconds after its read. */
  lemma SlowWriter() returns (s: State, es: seq<Event>)
    ensures Initial(s) && ValidRun(s, es)
    ensures DisciplinedRun(2_000_000_001, s, es) && TimelyRun(2_000_000_001, s, es)
    ensures var t := Run(s, es); t.contenders == map[0 := Won, 1 := Won] && t.nickname == Some(1)
  {
    var bound := PAUSE + 1;
    s, es := FirstOfTwoReaders(bound);
    Extend(bound, s, es, Write(1, true, true));
    es := es + [Write(1, true, true)];
    Extend(bound, s, es, Tick(PAUSE));
    es := es + [Tick(PAUSE)];
    Extend(bound, s, es, Check(1));
    es := es + [Check(1)];
    assert Run(s, es).contenders == map[0 := Won, 1 := Won];
    DisciplinedIsTimely(bound, s, es);
  }

  /** The two-second pause is exactly as long as it has to be for the write latency it tolerates. */
  lemma PauseIsExact(bound: int)
    ensures ExclusiveWhenWritesWithin(bound) <==> bound <= 2_000_000_000
  {
    if bound <= PAUSE {
      forall s, es, p: nat, q: nat |
        Initial(s) && ValidRun(s, es) && DisciplinedRun(bound, s, es)
        && HoldsByWinning(Run(s, es), p) && HoldsByWinning(Run(s, es), q)
        ensures p == q
      {
        TighterBound(bound, PAUSE, s, es);
        WinnersExclusive(s, es, p, q);
      }
    } else {
      var s, es := SlowWriter();
      TighterBound(PAUSE + 1, bound, s, es);
      assert HoldsByWinning(Run(s, es), 0) && HoldsByWinning(Run(s, es), 1);
    }
  }
}
