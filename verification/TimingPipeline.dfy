/**
 From reports to results: the monitor logs the statistics whenever they hold more than 100 results and starts
 afresh, and the parser merges what each instance logged. Together they refine plain accumulation.
 */
module TimingPipeline {
  import opened Collections
  import opened Timing

  const THRESHOLD := 100
  const WINDOW := THRESHOLD + 1

  // ---------------------------------------------------------------- the monitor

  /** What is logged from sample n on, with these statistics in hand. */
  ghost function Windows(cur: Routes, samples: seq<Sample>, n: nat): seq<Routes>
    requires n <= |samples|
    decreases |samples| - n
  {
    if n == |samples| then if Total(cur) > 0 then [cur] else []
    else
      var next := Added(cur, samples[n]);
      if Total(next) > THRESHOLD then [next] + Windows(map[], samples, n + 1)
      else Windows(next, samples, n + 1)
  }

  /** One report more: either a window is full, or it goes on. */
  lemma NextReport(logged: seq<Routes>, cur: Routes, reports: seq<Sample>, n: nat, all: seq<Routes>)
    requires n < |reports| && logged + Windows(cur, reports, n) == all
    ensures var next := Added(cur, reports[n]);
            if Total(next) > THRESHOLD then (logged + [next]) + Windows(map[], reports, n + 1) == all
            else logged + Windows(next, reports, n + 1) == all
  {
    hide Added, Total;
    var next := Added(cur, reports[n]);
    ConcatAssociative(logged, [next], Windows(map[], reports, n + 1));
  }

  lemma NoMoreReports(logged: seq<Routes>, cur: Routes, reports: seq<Sample>, all: seq<Routes>)
    requires logged + Windows(cur, reports, |reports|) == all
    ensures (if Total(cur) > 0 then logged + [cur] else logged) == all
  {
    hide Total;
  }

  /** The loop over the timing channel, and the flush after it is closed. */
  method RunMonitor(reports: seq<Sample>) returns (logged: seq<Routes>)
    ensures logged == Windows(map[], reports, 0)
  {
    hide Added, Total, Windows;
    ghost var all := Windows(map[], reports, 0);
    logged := [];
    var stats := new ClientTimingStats();
    for n := 0 to |reports|
      invariant fresh(stats) && fresh(stats.routes.Values) && stats.Valid()
      invariant logged + Windows(stats.Contents(), reports, n) == all
    {
      NextReport(logged, stats.Contents(), reports, n, all);
      stats.AddRouteSample(reports[n].route, reports[n].duration, reports[n].status);
      var count := stats.CountResults();
      if count > THRESHOLD {
        logged := logged + [stats.Contents()];
        stats.Reset();
      }
    }
    NoMoreReports(logged, stats.Contents(), reports, all);
    var count := stats.CountResults();
    if count > 0 {
      logged := logged + [stats.Contents()];
      stats.Reset();
    }
  }

  /** The number of samples up to and including the last window logged by the threshold. */
  ghost function LastFull(cur: Routes, samples: seq<Sample>, n: nat, last: nat): (r: nat)
    requires last <= n <= |samples|
    ensures r <= |samples|
    decreases |samples| - n
  {
    if n == |samples| then last
    else
      var next := Added(cur, samples[n]);
      if Total(next) > THRESHOLD then LastFull(map[], samples, n + 1, n + 1)
      else LastFull(next, samples, n + 1, last)
  }

  predicate SomeSuccess(samples: seq<Sample>, from: nat, to: nat)
    requires from <= to <= |samples|
  {
    exists i :: from <= i < to && Succeeded(samples[i].status)
  }

  /** The number of successful reports among the first n. */
  function Successes(samples: seq<Sample>, n: nat): nat
    requires n <= |samples|
  {
    if n == 0 then 0 else Successes(samples, n - 1) + if Succeeded(samples[n - 1].status) then 1 else 0
  }

  /** The position after the last successful report among the first n; zero if there is none. */
  function AfterLastSuccess(samples: seq<Sample>, n: nat): (r: nat)
    requires n <= |samples|
    ensures r <= n
  {
    if n == 0 then 0 else if Succeeded(samples[n - 1].status) then n else AfterLastSuccess(samples, n - 1)
  }

  /** What the logged windows cover: everything, unless the successes fill whole windows; then nothing after the last. */
  function Covered(samples: seq<Sample>): (r: nat)
    ensures r <= |samples|
  {
    if Successes(samples, |samples|) % WINDOW != 0 then |samples| else AfterLastSuccess(samples, |samples|)
  }

  /** The parser's fold: each logged window is merged into what came before. */
  function Folded(acc: Routes, windows: seq<Routes>): Routes
    decreases |windows|
  {
    if windows == [] then acc else Folded(Merged(acc, windows[0]), windows[1..])
  }

  function Plain(samples: seq<Sample>, n: nat): Routes
    requires n <= |samples|
  {
    Accumulated(map[], samples, n)
  }

  lemma {:induction false} PlainNamed(samples: seq<Sample>, n: nat)
    requires n <= |samples|
    ensures Named(Plain(samples, n))
  {
    if n > 0 {
      PlainNamed(samples, n - 1);
    }
  }

  lemma FoldedCons(acc: Routes, w: Routes, windows: seq<Routes>)
    ensures Folded(acc, [w] + windows) == Folded(Merged(acc, w), windows)
  {
    assert ([w] + windows)[1..] == windows;
  }

  lemma NoneNamed()
    ensures Named(map[]) && Total(map[]) == 0
  {
  }

  /** The statistics in hand hold the samples since the last full window; what was logged before holds the rest. */
  ghost predicate InHand(cur: Routes, samples: seq<Sample>, last: nat, n: nat)
    requires last <= n <= |samples|
  {
    && Named(cur)
    && Merged(Plain(samples, last), cur) == Plain(samples, n)
    && (Total(cur) > 0 <==> SomeSuccess(samples, last, n))
  }

  lemma NothingInHand(samples: seq<Sample>, n: nat)
    requires n <= |samples|
    ensures InHand(map[], samples, n, n)
  {
    MergedNothing(Plain(samples, n));
  }

  /** One more sample, seen by the statistics in hand and by plain accumulation. */
  lemma Advance(cur: Routes, samples: seq<Sample>, last: nat, n: nat)
    requires last <= n < |samples| && InHand(cur, samples, last, n)
    ensures InHand(Added(cur, samples[n]), samples, last, n + 1)
  {
    PlainNamed(samples, last);
    AddAfterMerge(Plain(samples, last), cur, samples[n]);
    TotalAdded(cur, samples[n]);
    hide Added, Merged, Named, Total;
    assert SomeSuccess(samples, last, n + 1) <==> SomeSuccess(samples, last, n) || Succeeded(samples[n].status);
  }

  function CoveredAfter(samples: seq<Sample>, full: nat): nat
    requires full <= |samples|
  {
    if SomeSuccess(samples, full, |samples|) then |samples| else full
  }

  /** The flush at the end of the run. */
  lemma FoldedFlush(cur: Routes, samples: seq<Sample>, last: nat)
    requires last <= |samples| && InHand(cur, samples, last, |samples|)
    ensures Folded(Plain(samples, last), if Total(cur) > 0 then [cur] else []) == Plain(samples, CoveredAfter(samples, last))
  {
    hide Merged, Plain, Total, Named, SomeSuccess;
    FoldedOne(Plain(samples, last), cur);
  }

  lemma FoldedOne(acc: Routes, w: Routes)
    ensures Folded(acc, [w]) == Merged(acc, w) && Folded(acc, []) == acc
  {
    assert [w][1..] == [];
  }

  lemma {:induction false} FoldedWindows(cur: Routes, samples: seq<Sample>, last: nat, n: nat)
    requires last <= n <= |samples| && InHand(cur, samples, last, n)
    ensures Folded(Plain(samples, last), Windows(cur, samples, n))
            == Plain(samples, CoveredAfter(samples, LastFull(cur, samples, n, last)))
    decreases |samples| - n
  {
    hide *;
    if n == |samples| {
      LastStep(cur, samples, last);
      FoldedFlush(cur, samples, last);
    } else {
      var next := Added(cur, samples[n]);
      OneStep(cur, samples, n, last);
      Advance(cur, samples, last, n);
      if Total(next) > THRESHOLD {
        NothingInHand(samples, n + 1);
        FoldedWindows(map[], samples, n + 1, n + 1);
        FoldedCons(Plain(samples, last), next, Windows(map[], samples, n + 1));
        assert Merged(Plain(samples, last), next) == Plain(samples, n + 1) by { InHandMerged(next, samples, last, n + 1); }
      } else {
        FoldedWindows(next, samples, last, n + 1);
      }
    }
  }

  lemma OneStep(cur: Routes, samples: seq<Sample>, n: nat, last: nat)
    requires last <= n < |samples|
    ensures var next := Added(cur, samples[n]);
            && Windows(cur, samples, n) == (if Total(next) > THRESHOLD then [next] + Windows(map[], samples, n + 1)
                                            else Windows(next, samples, n + 1))
            && LastFull(cur, samples, n, last) == if Total(next) > THRESHOLD then LastFull(map[], samples, n + 1, n + 1)
                                                  else LastFull(next, samples, n + 1, last)
  {
  }

  lemma LastStep(cur: Routes, samples: seq<Sample>, last: nat)
    requires last <= |samples|
    ensures Windows(cur, samples, |samples|) == if Total(cur) > 0 then [cur] else []
    ensures LastFull(cur, samples, |samples|, last) == last
  {
  }

  lemma InHandMerged(cur: Routes, samples: seq<Sample>, last: nat, n: nat)
    requires last <= n <= |samples| && InHand(cur, samples, last, n)
    ensures Merged(Plain(samples, last), cur) == Plain(samples, n)
  {
  }

  /** Reports that failed leave the durations alone, and count as hit and error alike. */
  lemma {:induction false} FailuresOnly(samples: seq<Sample>, m: nat, n: nat, route: string)
    requires m <= n <= |samples| && !SomeSuccess(samples, m, n)
    ensures var before, after := StatsOf(Plain(samples, m), route), StatsOf(Plain(samples, n), route);
            && after.durations == before.durations
            && after.hits - before.hits == after.errors - before.errors == Reports(samples, m, n, route)
    decreases n
  {
    if m < n {
      assert !Succeeded(samples[n - 1].status);
      FailuresOnly(samples, m, n - 1, route);
    }
  }

  /** The number of reports about a route. */
  function Reports(samples: seq<Sample>, m: nat, n: nat, route: string): nat
    requires m <= n <= |samples|
    decreases n
  {
    if m == n then 0 else Reports(samples, m, n - 1, route) + if samples[n - 1].route == route then 1 else 0
  }

  // ---------------------------------------------------------------- windows, by counting successes

  lemma {:induction false} SuccessCounts(samples: seq<Sample>, m: nat, n: nat)
    requires m <= n <= |samples|
    ensures Successes(samples, m) <= Successes(samples, n)
    ensures SomeSuccess(samples, m, n) <==> Successes(samples, n) > Successes(samples, m)
    ensures !SomeSuccess(samples, m, n) ==> AfterLastSuccess(samples, n) == AfterLastSuccess(samples, m) || m == n
    decreases n
  {
    if m < n {
      SuccessCounts(samples, m, n - 1);
      assert SomeSuccess(samples, m, n) <==> SomeSuccess(samples, m, n - 1) || Succeeded(samples[n - 1].status);
    }
  }

  /** These statistics hold the successes since `last`, which is where a full window was logged, or the start. */
  ghost predicate Counting(cur: Routes, samples: seq<Sample>, last: nat, n: nat)
    requires last <= n <= |samples|
  {
    && Total(cur) == Successes(samples, n) - Successes(samples, last) <= THRESHOLD
    && AfterLastSuccess(samples, last) == last
  }

  /** From any point on: the windows still to come, for c successes since the last full one. */
  ghost predicate WindowsFor(w: seq<Routes>, c: int) {
    && c >= 0
    && |w| == (c + THRESHOLD) / WINDOW
    && (forall k :: 0 <= k < c / WINDOW ==> Total(w[k]) == WINDOW)
    && (c % WINDOW != 0 ==> Total(w[|w| - 1]) == c % WINDOW)
  }

  lemma OneWindowMore(w: seq<Routes>, c: int, full: Routes)
    requires WindowsFor(w, c) && Total(full) == WINDOW
    ensures WindowsFor([full] + w, c + WINDOW)
  {
    hide Total;
    var v := [full] + w;
    assert (c + WINDOW) / WINDOW == c / WINDOW + 1 && (c + WINDOW) % WINDOW == c % WINDOW;
    forall k | 0 <= k < (c + WINDOW) / WINDOW ensures Total(v[k]) == WINDOW {
      if k > 0 {
        assert v[k] == w[k - 1];
      }
    }
  }

  /** Where the last full window ends: after as many successes as fill whole windows, at a success. */
  ghost predicate FullAt(samples: seq<Sample>, last: nat, full: nat, c: int)
    requires last <= |samples| && full <= |samples|
  {
    && AfterLastSuccess(samples, full) == full
    && c >= 0 && Successes(samples, full) - Successes(samples, last) == c - c % WINDOW
  }

  lemma Counted(cur: Routes, samples: seq<Sample>, last: nat, n: nat)
    requires last <= n < |samples| && Counting(cur, samples, last, n)
    ensures var next := Added(cur, samples[n]);
            if Total(next) > THRESHOLD then
              Total(next) == WINDOW == Successes(samples, n + 1) - Successes(samples, last)
              && Counting(map[], samples, n + 1, n + 1)
            else Counting(next, samples, last, n + 1)
  {
    TotalAdded(cur, samples[n]);
    NoneNamed();
    hide Total, Added;
  }

  lemma {:induction false} CountWindows(cur: Routes, samples: seq<Sample>, last: nat, n: nat)
    requires last <= n <= |samples| && Counting(cur, samples, last, n)
    ensures var c := Successes(samples, |samples|) - Successes(samples, last);
            WindowsFor(Windows(cur, samples, n), c) && FullAt(samples, last, LastFull(cur, samples, n, last), c)
    decreases |samples| - n
  {
    hide Total, Added, Windows, LastFull, WindowsFor, FullAt, Counting, Successes, AfterLastSuccess;
    if n == |samples| {
      LastStep(cur, samples, last);
      FewSuccesses(cur, samples, last);
    } else {
      var next := Added(cur, samples[n]);
      OneStep(cur, samples, n, last);
      Counted(cur, samples, last, n);
      if Total(next) > THRESHOLD {
        CountWindows(map[], samples, n + 1, n + 1);
        var c := Successes(samples, |samples|) - Successes(samples, n + 1);
        OneWindowMore(Windows(map[], samples, n + 1), c, next);
        FullAtBefore(samples, last, n + 1, LastFull(map[], samples, n + 1, n + 1), c);
      } else {
        CountWindows(next, samples, last, n + 1);
      }
    }
  }

  /** The flush. */
  lemma FewSuccesses(cur: Routes, samples: seq<Sample>, last: nat)
    requires last <= |samples| && Counting(cur, samples, last, |samples|)
    ensures WindowsFor(if Total(cur) > 0 then [cur] else [], Successes(samples, |samples|) - Successes(samples, last))
    ensures FullAt(samples, last, last, Successes(samples, |samples|) - Successes(samples, last))
  {
    hide Total, Successes, AfterLastSuccess;
  }

  lemma FullAtBefore(samples: seq<Sample>, last: nat, next: nat, full: nat, c: int)
    requires last <= |samples| && next <= |samples| && full <= |samples|
    requires FullAt(samples, next, full, c) && Successes(samples, next) - Successes(samples, last) == WINDOW
    ensures FullAt(samples, last, full, c + WINDOW)
  {
    hide Successes, AfterLastSuccess;
    assert (c + WINDOW) % WINDOW == c % WINDOW;
  }

  lemma StartCounting(samples: seq<Sample>)
    ensures Counting(map[], samples, 0, 0)
  {
    NoneNamed();
  }

  /**
   The windows by the number c of successful reports: (c + 100) / 101 of them, the first c / 101 of exactly 101
   successes, and a last one of the remaining c % 101 if any remain.
   */
  lemma WindowSizes(samples: seq<Sample>)
    ensures var w, c := Windows(map[], samples, 0), Successes(samples, |samples|);
            && |w| == (c + 100) / 101
            && (forall k :: 0 <= k < c / 101 ==> Total(w[k]) == 101)
            && (c % 101 != 0 ==> Total(w[|w| - 1]) == c % 101)
  {
    StartCounting(samples);
    CountWindows(map[], samples, 0, 0);
    hide Total, Windows;
  }

  /** The flush depends on the successes alone. */
  lemma CoveredByCount(samples: seq<Sample>)
    ensures CoveredAfter(samples, LastFull(map[], samples, 0, 0)) == Covered(samples)
  {
    StartCounting(samples);
    CountWindows(map[], samples, 0, 0);
    hide LastFull, SomeSuccess;
    SuccessCounts(samples, LastFull(map[], samples, 0, 0), |samples|);
  }

  /**
   Windowed logging refines direct accumulation. Merging an instance's windows in order gives exactly the
   statistics of the covered reports: per route the same duration sequence as never resetting, and hits and
   errors that are short only of the reports not covered, which all failed.
   */
  lemma WindowsRefineAccumulation(samples: seq<Sample>, route: string)
    ensures var folded, all := Folded(map[], Windows(map[], samples, 0)), Plain(samples, |samples|);
            && folded == Plain(samples, Covered(samples))
            && StatsOf(folded, route).durations == StatsOf(all, route).durations
            && StatsOf(all, route).hits - StatsOf(folded, route).hits == Reports(samples, Covered(samples), |samples|, route)
            && StatsOf(all, route).errors - StatsOf(folded, route).errors == Reports(samples, Covered(samples), |samples|, route)
    ensures !SomeSuccess(samples, Covered(samples), |samples|)
  {
    NothingInHand(samples, 0);
    FoldedWindows(map[], samples, 0, 0);
    CoveredByCount(samples);
    FailuresOnly(samples, Covered(samples), |samples|, route);
  }

  lemma {:induction false} LastSuccessAtEnd(samples: seq<Sample>)
    ensures AfterLastSuccess(samples, |samples|) == |samples| <==> samples == [] || Succeeded(samples[|samples| - 1].status)
  {
  }

  /**
   Nothing at all is lost exactly if there was no report, or the last one succeeded, or the number of successes is
   no multiple of 101.
   */
  lemma NothingLostExactly(samples: seq<Sample>)
    ensures Folded(map[], Windows(map[], samples, 0)) == Plain(samples, |samples|) <==>
            || samples == []
            || Succeeded(samples[|samples| - 1].status)
            || Successes(samples, |samples|) % 101 != 0
  {
    hide Folded, Windows, Plain, Successes, AfterLastSuccess, SomeSuccess;
    var c := Covered(samples);
    LastSuccessAtEnd(samples);
    if c < |samples| {
      var route := samples[|samples| - 1].route;
      WindowsRefineAccumulation(samples, route);
      assert Reports(samples, c, |samples|, route) > 0;
    } else {
      WindowsRefineAccumulation(samples, "");
    }
  }

  // ---------------------------------------------------------------- the parser

  datatype LogEntry =
    | TimingsLog(instance: string, timings: Routes)  // an absent instance id is the empty string
    | UnreadableTimings                              // tagged as timings, but of the wrong shape
    | OtherLog
    | Malformed                                      // not JSON

  function InstanceId(entry: LogEntry): string
    requires entry.TimingsLog?
  {
    if entry.instance == "" then "default" else entry.instance
  }

  /** The windows an instance logged among the first n entries. */
  function LoggedBy(entries: seq<LogEntry>, id: string, n: nat): seq<Routes>
    requires n <= |entries|
  {
    if n == 0 then []
    else LoggedBy(entries, id, n - 1)
         + if entries[n - 1].TimingsLog? && id == (if entries[n - 1].instance == "" then "default" else entries[n - 1].instance)
           then [entries[n - 1].timings] else []
  }

  /** Two entries go to the same accumulator exactly if they name the same instance, where no name means "default". */
  lemma InstancesShareExactly(a: LogEntry, b: LogEntry)
    requires a.TimingsLog? && b.TimingsLog?
    ensures InstanceId(a) == InstanceId(b) <==>
              || a.instance == b.instance
              || (a.instance == "" && b.instance == "default")
              || (a.instance == "default" && b.instance == "")
    ensures InstanceId(a) != ""
  {
  }

  lemma {:induction false} FoldedAppend(acc: Routes, windows: seq<Routes>, w: Routes)
    ensures Folded(acc, windows + [w]) == Merged(Folded(acc, windows), w)
    decreases |windows|
  {
    if windows == [] {
      assert windows + [w] == [w];
    } else {
      FoldedAppend(Merged(acc, windows[0]), windows[1..], w);
      assert (windows + [w])[1..] == windows[1..] + [w];
    }
  }

  /** The accumulators after n entries: for each instance heard of, the fold of what it logged. */
  ghost predicate Parsed(all: map<string, Routes>, entries: seq<LogEntry>, n: nat)
    requires n <= |entries|
  {
    forall id ::
      && (id in all <==> |LoggedBy(entries, id, n)| > 0)
      && (id in all ==> all[id] == Folded(map[], LoggedBy(entries, id, n)))
  }

  /** all[id] := all[id].Merge(timings), where an absent accumulator is nil. */
  function WithLogged(all: map<string, Routes>, id: string, timings: Routes): map<string, Routes> {
    all[id := Merged(if id in all then all[id] else map[], timings)]
  }

  lemma ParsedNext(all: map<string, Routes>, entries: seq<LogEntry>, n: nat)
    requires n < |entries| && Parsed(all, entries, n)
    ensures Parsed(if entries[n].TimingsLog? then WithLogged(all, InstanceId(entries[n]), entries[n].timings) else all,
                   entries, n + 1)
  {
    hide Merged;
    if entries[n].TimingsLog? {
      var id := InstanceId(entries[n]);
      var windows, after := LoggedBy(entries, id, n), WithLogged(all, id, entries[n].timings);
      FoldedAppend(map[], windows, entries[n].timings);
      assert |windows| == 0 ==> windows == [];
      forall k
        ensures (k in after <==> |LoggedBy(entries, k, n + 1)| > 0)
                && (k in after ==> after[k] == Folded(map[], LoggedBy(entries, k, n + 1)))
      {
        assert k in all <==> |LoggedBy(entries, k, n)| > 0;
        if k != id {
          assert LoggedBy(entries, k, n + 1) == LoggedBy(entries, k, n);
        }
      }
    } else {
      forall k ensures LoggedBy(entries, k, n + 1) == LoggedBy(entries, k, n) {
      }
    }
  }

  /** The decode loop: one accumulator per instance, however the instances' lines are interleaved. */
  method ParseTimings(entries: seq<LogEntry>) returns (r: Result<map<string, Routes>>)
    ensures r.Ok? ==> Parsed(r.value, entries, |entries|)
    ensures r.Ok? <==> (forall i :: 0 <= i < |entries| ==> !entries[i].Malformed?)
                       && exists i :: 0 <= i < |entries| && entries[i].TimingsLog?
    ensures r.Ok? ==> forall i :: 0 <= i < |entries| && entries[i].TimingsLog? ==>
              (if entries[i].instance == "" then "default" else entries[i].instance) in r.value
  {
    hide Parsed, Merged;
    var allTimings: map<string, Routes> := map[];
    var foundStructuredLogs := false;
    assert Parsed(allTimings, entries, 0) by { NothingParsed(entries); }
    for n := 0 to |entries|
      invariant Parsed(allTimings, entries, n)
      invariant forall i :: 0 <= i < n ==> !entries[i].Malformed?
      invariant foundStructuredLogs <==> n > 0
      invariant forall i :: 0 <= i < n && entries[i].TimingsLog? ==> InstanceId(entries[i]) in allTimings
      invariant |allTimings| > 0 <==> exists i :: 0 <= i < n && entries[i].TimingsLog?
    {
      if entries[n].Malformed? {
        return Err("failed to decode");
      }
      foundStructuredLogs := true;
      ParsedNext(allTimings, entries, n);
      if entries[n].TimingsLog? {
        allTimings := WithLogged(allTimings, InstanceId(entries[n]), entries[n].timings);
        assert InstanceId(entries[n]) in allTimings.Keys;
      }
    }
    if !foundStructuredLogs {
      return Err("failed to find structured logs");
    }
    if |allTimings| == 0 {
      return Err("failed to find results");
    }
    return Ok(allTimings);
  }

  lemma NothingParsed(entries: seq<LogEntry>)
    ensures Parsed(map[], entries, 0)
  {
  }

  /** The log holds, for this id, what one instance's monitor wrote for its reports. */
  ghost predicate Logs(entries: seq<LogEntry>, id: string, samples: seq<Sample>) {
    LoggedBy(entries, id, |entries|) == Windows(map[], samples, 0)
  }

  /**
   End to end: whatever other entries and instances are mixed in, the parser has an accumulator for the instance
   exactly if one of its reports succeeded, and it holds the statistics of its covered reports.
   */
  lemma ParsedIsAccumulated(all: map<string, Routes>, entries: seq<LogEntry>, id: string, samples: seq<Sample>)
    requires Parsed(all, entries, |entries|) && Logs(entries, id, samples)
    ensures id in all <==> Successes(samples, |samples|) > 0
    ensures id in all ==> all[id] == Plain(samples, Covered(samples))
    ensures id !in all ==> Covered(samples) == 0
  {
    hide Parsed, Folded, Windows, Plain, Covered, Successes, SomeSuccess;
    WindowsRefineAccumulation(samples, "");
    WindowSizes(samples);
    ParsedAt(all, entries, id);
    if Successes(samples, |samples|) == 0 {
      NothingCovered(samples);
    }
  }

  /**
   And so, written out by the reports: for every route the parser has the durations of all the successful reports in
   order, and it has counted the reports, and those that failed, up to the last one covered.
   */
  lemma ParsedExactly(all: map<string, Routes>, entries: seq<LogEntry>, id: string, samples: seq<Sample>, route: string)
    requires Parsed(all, entries, |entries|) && Logs(entries, id, samples)
    ensures id in all <==> exists i :: 0 <= i < |samples| && 200 <= samples[i].status < 300
    ensures id in all ==>
              StatsOf(all[id], route) == Stats(route, HitsOf(samples, Covered(samples), route),
                                               ErrorsOf(samples, Covered(samples), route),
                                               DurationsOf(samples, |samples|, route))
  {
    hide Parsed, Logs, Covered, Folded, Windows, StatsOf, Successes;
    ParsedIsAccumulated(all, entries, id, samples);
    WindowsRefineAccumulation(samples, route);
    AccumulatedExactly(samples, Covered(samples), route);
    AccumulatedExactly(samples, |samples|, route);
    SuccessCounts(samples, 0, |samples|);
    NoSuccessYet(samples);
  }

  lemma NoSuccessYet(samples: seq<Sample>)
    ensures Successes(samples, 0) == 0
  {
  }

  lemma ParsedAt(all: map<string, Routes>, entries: seq<LogEntry>, id: string)
    requires Parsed(all, entries, |entries|)
    ensures id in all <==> |LoggedBy(entries, id, |entries|)| > 0
    ensures id in all ==> all[id] == Folded(map[], LoggedBy(entries, id, |entries|))
  {
    hide Folded, LoggedBy;
  }

  lemma NothingCovered(samples: seq<Sample>)
    requires Successes(samples, |samples|) == 0
    ensures Covered(samples) == 0
  {
    SuccessCounts(samples, 0, |samples|);
    hide SomeSuccess;
  }

  // ---------------------------------------------------------------- aggregating instances in any order

  /** The order-free content of one route. */
  datatype Tally = Tally(hits: int, errors: int, durations: multiset<int>)

  function TallyOf(m: Routes, route: string): Tally {
    var s := StatsOf(m, route);
    Tally(s.hits, s.errors, multiset(s.durations))
  }

  function Plus(a: Tally, b: Tally): Tally {
    Tally(a.hits + b.hits, a.errors + b.errors, a.durations + b.durations)
  }

  function Summed(list: seq<Routes>, route: string): Tally {
    if list == [] then Tally(0, 0, multiset{}) else Plus(TallyOf(list[0], route), Summed(list[1..], route))
  }

  lemma TallyMerged(a: Routes, b: Routes, route: string)
    ensures TallyOf(Merged(a, b), route) == Plus(TallyOf(a, route), TallyOf(b, route))
  {
    MergedLookup(a, b, route);
  }

  lemma {:induction false} FoldedTally(acc: Routes, list: seq<Routes>, route: string)
    ensures TallyOf(Folded(acc, list), route) == Plus(TallyOf(acc, route), Summed(list, route))
    decreases |list|
  {
    hide TallyOf;
    if list != [] {
      TallyMerged(acc, list[0], route);
      FoldedTally(Merged(acc, list[0]), list[1..], route);
    }
  }

  lemma {:induction false} SummedTakeOut(list: seq<Routes>, j: nat, route: string)
    requires j < |list|
    ensures Summed(list, route) == Plus(TallyOf(list[j], route), Summed(list[..j] + list[j + 1..], route))
    decreases |list|
  {
    hide TallyOf;
    var rest := list[..j] + list[j + 1..];
    if j == 0 {
      assert rest == list[1..];
    } else {
      SummedTakeOut(list[1..], j - 1, route);
      assert rest[1..] == list[1..][..j - 1] + list[1..][j..];
      assert rest[0] == list[0];
    }
  }

  lemma {:induction false} SummedInAnyOrder(a: seq<Routes>, b: seq<Routes>, route: string)
    requires multiset(a) == multiset(b)
    ensures Summed(a, route) == Summed(b, route)
    decreases |a|
  {
    hide TallyOf;
    if a == [] {
      assert |multiset(b)| == 0;
    } else {
      assert a[0] in multiset(b);
      var j :| 0 <= j < |b| && b[j] == a[0];
      SummedTakeOut(b, j, route);
      SameElementTakenOut(a, b, j);
      SummedInAnyOrder(a[1..], b[..j] + b[j + 1..], route);
    }
  }

  /**
   Aggregating the instances in whatever order a map yields them gives, per route, the same hits, the same
   errors and the same durations up to order.
   */
  lemma AggregateOrderFree(a: seq<Routes>, b: seq<Routes>, route: string)
    requires multiset(a) == multiset(b)
    ensures TallyOf(Folded(map[], a), route) == TallyOf(Folded(map[], b), route)
  {
    FoldedTally(map[], a, route);
    FoldedTally(map[], b, route);
    SummedInAnyOrder(a, b, route);
  }

  function InOrder(all: map<string, Routes>, ids: seq<string>): seq<Routes>
    requires forall k :: 0 <= k < |ids| ==> ids[k] in all
  {
    seq(|ids|, k requires 0 <= k < |ids| => all[ids[k]])
  }

  /** The statistics of the covered reports of these instances. */
  function CoveredOf(runs: map<string, seq<Sample>>, ids: seq<string>): seq<Routes>
    requires forall k :: 0 <= k < |ids| ==> ids[k] in runs
  {
    seq(|ids|, k requires 0 <= k < |ids| => Plain(runs[ids[k]], Covered(runs[ids[k]])))
  }

  /**
   From all machines to the result: when the log holds what the monitors of these runs wrote, and nothing else, the
   aggregate has per route the sum of every instance's covered reports, in whatever order the map yields the
   instances. An instance that is missing covers no report.
   */
  lemma AggregateIsSum(all: map<string, Routes>, entries: seq<LogEntry>, runs: map<string, seq<Sample>>,
                       ids: seq<string>, route: string)
    requires Parsed(all, entries, |entries|)
    requires forall id :: Logs(entries, id, if id in runs then runs[id] else [])
    requires Distinct(ids) && Elements(ids) == all.Keys
    ensures forall k :: 0 <= k < |ids| ==> ids[k] in all && ids[k] in runs
    ensures TallyOf(Folded(map[], InOrder(all, ids)), route) == Summed(CoveredOf(runs, ids), route)
    ensures forall id :: id in runs && id !in all ==> Covered(runs[id]) == 0
  {
    hide Parsed, Logs, Plain, Covered, Successes, TallyOf, Folded, Summed;
    forall k | 0 <= k < |ids|
      ensures ids[k] in all && ids[k] in runs && all[ids[k]] == Plain(runs[ids[k]], Covered(runs[ids[k]]))
    {
      assert ids[k] in Elements(ids);
      ParsedIsAccumulated(all, entries, ids[k], if ids[k] in runs then runs[ids[k]] else []);
      NoReports();
    }
    assert InOrder(all, ids) == CoveredOf(runs, ids);
    FoldedTally(map[], InOrder(all, ids), route);
    NothingTallied(Summed(CoveredOf(runs, ids), route), route);
    forall id | id in runs && id !in all ensures Covered(runs[id]) == 0 {
      ParsedIsAccumulated(all, entries, id, runs[id]);
    }
  }

  /** What one instance contributes to the result. */
  function Contribution(samples: seq<Sample>, route: string): Tally {
    Tally(HitsOf(samples, Covered(samples), route), ErrorsOf(samples, Covered(samples), route),
          multiset(DurationsOf(samples, |samples|, route)))
  }

  function ContributionsOf(runs: map<string, seq<Sample>>, ids: seq<string>, n: nat, route: string): Tally
    requires n <= |ids| && forall k :: 0 <= k < |ids| ==> ids[k] in runs
  {
    if n == 0 then Tally(0, 0, multiset{})
    else
      var before, own := ContributionsOf(runs, ids, n - 1, route), Contribution(runs[ids[n - 1]], route);
      Tally(before.hits + own.hits, before.errors + own.errors, before.durations + own.durations)
  }

  lemma CoveredTally(samples: seq<Sample>, route: string)
    ensures TallyOf(Plain(samples, Covered(samples)), route) == Contribution(samples, route)
  {
    hide Covered, Windows, Folded, StatsOf;
    WindowsRefineAccumulation(samples, route);
    AccumulatedExactly(samples, Covered(samples), route);
    AccumulatedExactly(samples, |samples|, route);
  }

  lemma {:induction false} SummedAppend(list: seq<Routes>, m: Routes, route: string)
    ensures Summed(list + [m], route) == Plus(Summed(list, route), TallyOf(m, route))
    decreases |list|
  {
    hide TallyOf;
    if |list| == 0 {
      assert list + [m] == [m];
    } else {
      SummedAppend(list[1..], m, route);
      assert (list + [m])[1..] == list[1..] + [m];
    }
  }

  lemma OneContributionMore(runs: map<string, seq<Sample>>, ids: seq<string>, n: nat, route: string)
    requires 0 < n <= |ids| && forall k :: 0 <= k < |ids| ==> ids[k] in runs
    ensures CoveredOf(runs, ids)[..n] == CoveredOf(runs, ids)[..n - 1] + [CoveredOf(runs, ids)[n - 1]]
    ensures TallyOf(CoveredOf(runs, ids)[n - 1], route) == Contribution(runs[ids[n - 1]], route)
    ensures ContributionsOf(runs, ids, n, route) == Plus(ContributionsOf(runs, ids, n - 1, route), Contribution(runs[ids[n - 1]], route))
  {
    hide Plain, Covered, TallyOf, Contribution;
    CoveredTally(runs[ids[n - 1]], route);
  }

  lemma NoneSummed(list: seq<Routes>, route: string)
    ensures Summed(list[..0], route) == Tally(0, 0, multiset{})
  {
  }

  lemma {:induction false} CoveredSummed(runs: map<string, seq<Sample>>, ids: seq<string>, n: nat, route: string)
    requires n <= |ids| && forall k :: 0 <= k < |ids| ==> ids[k] in runs
    ensures |CoveredOf(runs, ids)| == |ids|
    ensures Summed(CoveredOf(runs, ids)[..n], route) == ContributionsOf(runs, ids, n, route)
  {
    hide Summed, TallyOf, Contribution, Plus, Plain, Covered;
    if n == 0 {
      NoneSummed(CoveredOf(runs, ids), route);
    } else {
      hide CoveredOf, ContributionsOf;
      CoveredSummed(runs, ids, n - 1, route);
      OneContributionMore(runs, ids, n, route);
      SummedAppend(CoveredOf(runs, ids)[..n - 1], CoveredOf(runs, ids)[n - 1], route);
    }
  }

  /** The same by the reports: the aggregate has the durations of every successful report of every instance. */
  lemma AggregateExactly(all: map<string, Routes>, entries: seq<LogEntry>, runs: map<string, seq<Sample>>,
                         ids: seq<string>, route: string)
    requires Parsed(all, entries, |entries|)
    requires forall id :: Logs(entries, id, if id in runs then runs[id] else [])
    requires Distinct(ids) && Elements(ids) == all.Keys
    ensures forall k :: 0 <= k < |ids| ==> ids[k] in all && ids[k] in runs
    ensures TallyOf(Folded(map[], InOrder(all, ids)), route) == ContributionsOf(runs, ids, |ids|, route)
    ensures forall id :: id in runs && id !in all ==> forall i :: 0 <= i < |runs[id]| ==> !(200 <= runs[id][i].status < 300)
  {
    hide Parsed, Logs, TallyOf, Folded, Summed, CoveredOf, ContributionsOf, InOrder;
    AggregateIsSum(all, entries, runs, ids, route);
    CoveredSummed(runs, ids, |ids|, route);
    CoveredLength(runs, ids);
    forall id | id in runs && id !in all ensures forall i :: 0 <= i < |runs[id]| ==> !(200 <= runs[id][i].status < 300) {
      ParsedExactly(all, entries, id, runs[id], route);
    }
  }

  lemma CoveredLength(runs: map<string, seq<Sample>>, ids: seq<string>)
    requires forall k :: 0 <= k < |ids| ==> ids[k] in runs
    ensures CoveredOf(runs, ids)[..|ids|] == CoveredOf(runs, ids)
  {
  }

  lemma NoReports()
    ensures Successes([], 0) == 0
  {
  }

  lemma NothingTallied(a: Tally, route: string)
    ensures Plus(TallyOf(map[], route), a) == a
  {
  }
}
