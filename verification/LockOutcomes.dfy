/**
 What becomes of each contender for the bulk-load lock, told by its own requests and what they read: who got true and
 why, who got false, and what the nickname is. These hold in every run, timely or not.
 */
module LockOutcomes {
  import opened Collections
  import opened BulkloadLock
  import opened LockLimits

  // ---------------------------------------------------------------- what the requests of a run saw

  /** The check after the pause read the contender's own id back. */
  predicate ReadOwn(s: State, es: seq<Event>, p: nat)
    requires ValidRun(s, es)
    decreases |es|
  {
    es != [] && ((es[0] == Check(p) && s.nickname == Some(p)) || ReadOwn(Step(s, es[0]), es[1..], p))
  }

  /** A poll read an empty nickname. */
  predicate ReadCleared(s: State, es: seq<Event>, p: nat)
    requires ValidRun(s, es)
    decreases |es|
  {
    es != [] && ((es[0] == Poll(p) && s.nickname == None) || ReadCleared(Step(s, es[0]), es[1..], p))
  }

  /** The first read, or the check, found the lock taken by another. */
  predicate ReadTaken(s: State, es: seq<Event>, p: nat)
    requires ValidRun(s, es)
    decreases |es|
  {
    && es != []
    && (|| (es[0] == Enter(p) && s.nickname != None)
        || (es[0] == Check(p) && s.nickname != Some(p))
        || ReadTaken(Step(s, es[0]), es[1..], p))
  }

  /** The release is over: its first request failed or found nothing to clear, or its second has been sent. */
  predicate ReleaseOver(s: State, es: seq<Event>, p: nat)
    requires ValidRun(s, es)
    decreases |es|
  {
    && es != []
    && (|| es[0] == BeginReleaseFails(p)
        || (es[0] == BeginRelease(p) && s.nickname == None)
        || es[0] == Clear(p, true) || es[0] == Clear(p, false)
        || ReleaseOver(Step(s, es[0]), es[1..], p))
  }

  /** One of the requests of getBulkloadLock was answered by an error. */
  predicate AcquireFailed(es: seq<Event>, p: nat) {
    exists e :: e in es && (e == EnterFails(p) || e == Write(p, true, false) || e == Write(p, false, false)
                            || e == CheckFails(p) || e == PollFails(p))
  }

  lemma AcquireFailedStep(es: seq<Event>, p: nat)
    requires es != []
    ensures AcquireFailed(es, p) <==>
              || AcquireFailed(es[1..], p)
              || es[0] == EnterFails(p) || es[0] == Write(p, true, false) || es[0] == Write(p, false, false)
              || es[0] == CheckFails(p) || es[0] == PollFails(p)
  {
    if e :| e in es && (e == EnterFails(p) || e == Write(p, true, false) || e == Write(p, false, false)
                        || e == CheckFails(p) || e == PollFails(p)) {
      assert e == es[0] || e in es[1..];
    }
    assert es[0] in es;
    assert forall e :: e in es[1..] ==> e in es;
  }

  // ---------------------------------------------------------------- outcomes

  /** A contender that is gone makes no request any more. */
  lemma {:induction false} GoneIsQuiet(s: State, es: seq<Event>, p: nat)
    requires ValidRun(s, es) && IsGone(s, p)
    ensures IsGone(Run(s, es), p)
    ensures !ReadOwn(s, es, p) && !ReadCleared(s, es, p) && !ReadTaken(s, es, p) && !ReleaseOver(s, es, p) && !AcquireFailed(es, p)
    decreases |es|
  {
    if es != [] {
      AcquireFailedStep(es, p);
      GoneIsQuiet(Step(s, es[0]), es[1..], p);
    }
  }

  /** The outcome of getBulkloadLock and of the release, from any point of a run on. */
  ghost predicate OutcomeFrom(s: State, es: seq<Event>, p: nat)
    requires ValidRun(s, es)
  {
    var t := Run(s, es);
    && (HoldsByWinning(t, p) <==> (HoldsByWinning(s, p) || ReadOwn(s, es, p)) && !ReleaseOver(s, es, p))
    && (HoldsByWaiting(t, p) <==> (HoldsByWaiting(s, p) || ReadCleared(s, es, p)) && !ReleaseOver(s, es, p))
    && (IsGone(t, p) <==> IsGone(s, p) || AcquireFailed(es, p) || ReleaseOver(s, es, p))
    && (Has(t, p) && t.contenders[p].Polling? <==>
          ((Has(s, p) && s.contenders[p].Polling?) || ReadTaken(s, es, p)) && !AcquireFailed(es, p) && !ReadCleared(s, es, p))
  }

  /** Once getBulkloadLock has returned true it sends nothing more. */
  lemma {:induction false} HolderAsksNoMore(s: State, es: seq<Event>, p: nat)
    requires ValidRun(s, es) && Holds(s, p)
    ensures !ReadOwn(s, es, p) && !ReadCleared(s, es, p) && !ReadTaken(s, es, p) && !AcquireFailed(es, p)
    decreases |es|
  {
    if es != [] {
      AcquireFailedStep(es, p);
      var t := Step(s, es[0]);
      if Holds(t, p) {
        HolderAsksNoMore(t, es[1..], p);
      } else {
        GoneIsQuiet(t, es[1..], p);
      }
    }
  }

  lemma {:induction false} PollerOnlyPolls(s: State, es: seq<Event>, p: nat)
    requires ValidRun(s, es) && Has(s, p) && s.contenders[p].Polling?
    ensures !ReadOwn(s, es, p) && !ReadTaken(s, es, p)
    ensures ReadCleared(s, es, p) ==> !AcquireFailed(es, p)
    ensures ReleaseOver(s, es, p) ==> ReadCleared(s, es, p)
    decreases |es|
  {
    if es != [] {
      AcquireFailedStep(es, p);
      var t := Step(s, es[0]);
      if Holds(t, p) {
        HolderAsksNoMore(t, es[1..], p);
      } else if IsGone(t, p) {
        GoneIsQuiet(t, es[1..], p);
      } else {
        PollerOnlyPolls(t, es[1..], p);
      }
    }
  }

  /** What the first event adds to what the rest of the run sees. */
  lemma FirstSeen(s: State, es: seq<Event>, p: nat)
    requires es != [] && ValidRun(s, es)
    ensures Run(s, es) == Run(Step(s, es[0]), es[1..])
    ensures var e, t, rest := es[0], Step(s, es[0]), es[1..];
            && (ReadOwn(s, es, p) <==> (e == Check(p) && s.nickname == Some(p)) || ReadOwn(t, rest, p))
            && (ReadCleared(s, es, p) <==> (e == Poll(p) && s.nickname == None) || ReadCleared(t, rest, p))
            && (ReadTaken(s, es, p) <==> || (e == Enter(p) && s.nickname != None) || (e == Check(p) && s.nickname != Some(p))
                                         || ReadTaken(t, rest, p))
            && (ReleaseOver(s, es, p) <==> || e == BeginReleaseFails(p) || (e == BeginRelease(p) && s.nickname == None)
                                           || e == Clear(p, true) || e == Clear(p, false) || ReleaseOver(t, rest, p))
  {
    hide Enabled, Step;
  }

  /** What the rest of a run can still see of p, by p's phase. */
  lemma StillToCome(s: State, es: seq<Event>, p: nat)
    requires ValidRun(s, es)
    ensures IsGone(s, p) ==> !ReleaseOver(s, es, p)
    ensures IsGone(s, p) || Holds(s, p) ==>
              !ReadOwn(s, es, p) && !ReadCleared(s, es, p) && !ReadTaken(s, es, p) && !AcquireFailed(es, p)
    ensures Has(s, p) && s.contenders[p].Polling? ==>
              && !ReadOwn(s, es, p) && !ReadTaken(s, es, p)
              && (ReadCleared(s, es, p) ==> !AcquireFailed(es, p)) && (ReleaseOver(s, es, p) ==> ReadCleared(s, es, p))
  {
    hide Run, ValidRun, Enabled, AcquireFailed, ReadOwn, ReadCleared, ReadTaken, ReleaseOver;
    if IsGone(s, p) {
      GoneIsQuiet(s, es, p);
    } else if Holds(s, p) {
      HolderAsksNoMore(s, es, p);
    } else if Has(s, p) && s.contenders[p].Polling? {
      PollerOnlyPolls(s, es, p);
    }
  }

  lemma OutcomeStep(s: State, es: seq<Event>, p: nat)
    requires es != [] && ValidRun(s, es) && OutcomeFrom(Step(s, es[0]), es[1..], p)
    ensures OutcomeFrom(s, es, p)
  {
    FirstSeen(s, es, p);
    AcquireFailedStep(es, p);
    StillToCome(Step(s, es[0]), es[1..], p);
    hide Run, AcquireFailed, ReadOwn, ReadCleared, ReadTaken, ReleaseOver;
  }

  lemma {:induction false} OutcomeRun(s: State, es: seq<Event>, p: nat)
    requires ValidRun(s, es)
    ensures OutcomeFrom(s, es, p)
    decreases |es|
  {
    if es == [] {
      assert !AcquireFailed(es, p);
    } else {
      OutcomeRun(Step(s, es[0]), es[1..], p);
      OutcomeStep(s, es, p);
    }
  }

  /**
   getBulkloadLock returned true to p exactly because it read its own id back after the pause, or an empty nickname
   while polling; p holds the lock until its release is over. It returned false exactly because one of its requests
   failed, and then p never holds the lock in any continuation; whoever found the lock taken polls until one of the two.
   */
  lemma OutcomeExactly(s: State, es: seq<Event>, p: nat)
    requires Initial(s) && ValidRun(s, es)
    ensures var t := Run(s, es);
            && (HoldsByWinning(t, p) <==> ReadOwn(s, es, p) && !ReleaseOver(s, es, p))
            && (HoldsByWaiting(t, p) <==> ReadCleared(s, es, p) && !ReleaseOver(s, es, p))
            && (IsGone(t, p) <==> AcquireFailed(es, p) || ReleaseOver(s, es, p))
            && (Has(t, p) && t.contenders[p].Polling? <==> ReadTaken(s, es, p) && !AcquireFailed(es, p) && !ReadCleared(s, es, p))
    ensures AcquireFailed(es, p) ==> IsGone(Run(s, es), p) && forall fs | ValidRun(Run(s, es), fs) :: !Holds(Run(Run(s, es), fs), p)
  {
    OutcomeRun(s, es, p);
    if AcquireFailed(es, p) {
      hide AcquireFailed, ReadOwn, ReadCleared, ReadTaken, ReleaseOver;
      forall fs | ValidRun(Run(s, es), fs) ensures !Holds(Run(Run(s, es), fs), p) {
        GoneIsQuiet(Run(s, es), fs, p);
      }
    }
  }

  /** p has not entered before `start`, and if it has entered, every sleep it is past has taken its time. */
  predicate HasSlept(start: int, s: State, p: nat) {
    && start <= s.now
    && (Has(s, p) ==>
          match s.contenders[p]
          case Deciding(readAt) => start <= readAt
          case Pausing(wroteAt) => start <= wroteAt
          case Polling(since) => start <= since
          case Gone => true
          case _ => s.now - start >= 2_000_000_000)
  }

  lemma SleepStep(start: int, s: State, e: Event, p: nat)
    requires HasSlept(start, s, p) && Enabled(s, e)
    requires Has(s, p) && s.contenders[p].Deciding? ==> s.contenders[p].readAt <= s.now
    ensures HasSlept(start, Step(s, e), p)
    ensures var t := Step(s, e); Has(t, p) && t.contenders[p].Deciding? ==> t.contenders[p].readAt <= t.now
  {
  }

  lemma {:induction false} SleepRun(start: int, s: State, es: seq<Event>, p: nat)
    requires HasSlept(start, s, p) && ValidRun(s, es)
    requires Has(s, p) && s.contenders[p].Deciding? ==> s.contenders[p].readAt <= s.now
    ensures HasSlept(start, Run(s, es), p)
    decreases |es|
  {
    if es != [] {
      SleepStep(start, s, es[0], p);
      hide Enabled, Step, HasSlept;
      SleepRun(start, Step(s, es[0]), es[1..], p);
    }
  }

  /** Nobody gets true in less than two seconds from its first request, through either branch. */
  lemma TrueTakesTwoSeconds(s: State, es: seq<Event>, p: nat)
    requires ValidRun(s, es) && !Has(s, p) && Holds(Run(s, es), p)
    ensures Run(s, es).now - s.now >= 2_000_000_000
  {
    SleepRun(s.now, s, es, p);
  }

  // ---------------------------------------------------------------- nobody blocks anybody

  ghost predicate TimesPast(s: State) {
    forall p: nat :: Has(s, p) ==>
      match s.contenders[p]
      case Pausing(wroteAt) => wroteAt <= s.now
      case Polling(since) => since <= s.now
      case _ => true
  }

  lemma {:induction false} TimesPastRun(s: State, es: seq<Event>)
    requires TimesPast(s) && ValidRun(s, es)
    ensures TimesPast(Run(s, es))
    decreases |es|
  {
    if es != [] {
      TimesPastStep(s, es[0]);
      hide Enabled, Step, TimesPast;
      TimesPastRun(Step(s, es[0]), es[1..]);
    }
  }

  lemma TimesPastStep(s: State, e: Event)
    requires TimesPast(s) && Enabled(s, e)
    ensures TimesPast(Step(s, e))
  {
  }

  /**
   Whatever the others have done, two seconds later every contender that is not gone can make its next request, and it
   can be answered either way; a new contender can always enter.
   */
  lemma NobodyBlocks(s: State, es: seq<Event>, p: nat)
    requires Initial(s) && ValidRun(s, es)
    ensures var t := Step(Run(s, es), Tick(2_000_000_000));
            if !Has(t, p) then t.nickname != Some(p) ==> Enabled(t, Enter(p)) && Enabled(t, EnterFails(p))
            else
              match t.contenders[p]
              case Deciding(_) => Enabled(t, Write(p, true, true)) && Enabled(t, Write(p, true, false)) && Enabled(t, Write(p, false, false))
              case Pausing(_) => Enabled(t, Check(p)) && Enabled(t, CheckFails(p))
              case Polling(_) => Enabled(t, Poll(p)) && Enabled(t, PollFails(p))
              case Clearing(_) => Enabled(t, Clear(p, true)) && Enabled(t, Clear(p, false))
              case Gone => true
              case _ => Enabled(t, BeginRelease(p)) && Enabled(t, BeginReleaseFails(p))
  {
    hide Run, ValidRun;
    TimesPastRun(s, es);
  }

  // ---------------------------------------------------------------- the shared state

  /** The nickname, told by the updates that reached the server. */
  function LastUpdate(before: Option<nat>, es: seq<Event>): Option<nat> {
    if |es| == 0 then before
    else
      match es[|es| - 1]
      case Write(p, true, _) => Some(p)
      case Clear(_, true) => None
      case _ => LastUpdate(before, es[..|es| - 1])
  }

  function Elapsed(es: seq<Event>): nat {
    if |es| == 0 then 0 else Elapsed(es[..|es| - 1]) + if es[|es| - 1].Tick? then es[|es| - 1].elapsed else 0
  }

  lemma {:induction false} LastUpdateStep(s: State, es: seq<Event>)
    requires es != [] && ValidRun(s, es)
    ensures LastUpdate(s.nickname, es) == LastUpdate(Step(s, es[0]).nickname, es[1..])
    ensures s.now + Elapsed(es) == Step(s, es[0]).now + Elapsed(es[1..])
    decreases |es|
  {
    if |es| == 1 {
      assert es[..0] == [] && es[1..] == [];
    } else {
      var front := es[..|es| - 1];
      FrontValid(s, es);
      LastUpdateStep(s, front);
      assert front[1..] == es[1..][..|es| - 2];
    }
  }

  lemma {:induction false} FrontValid(s: State, es: seq<Event>)
    requires es != [] && ValidRun(s, es)
    ensures ValidRun(s, es[..|es| - 1])
    decreases |es|
  {
    hide Enabled, Step;
    if |es| > 1 {
      FrontValid(Step(s, es[0]), es[1..]);
      assert es[..|es| - 1][1..] == es[1..][..|es| - 2];
    }
  }

  /** In every run the nickname is what the last update that reached the server set it to, and only time passing passes time. */
  lemma {:induction false} SharedStateExactly(s: State, es: seq<Event>)
    requires ValidRun(s, es)
    ensures Run(s, es).nickname == LastUpdate(s.nickname, es)
    ensures Run(s, es).now == s.now + Elapsed(es)
    decreases |es|
  {
    if es != [] {
      LastUpdateStep(s, es);
      hide Enabled, Step, LastUpdate, Elapsed;
      SharedStateExactly(Step(s, es[0]), es[1..]);
    }
  }
}
