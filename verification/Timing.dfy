/**
 Request timings: accumulated per route by the client, merged by the parser. The objects the source mutates are
 classes here; what they hold is described by the value types above them.
 */
module Timing {
  import opened Collections

  /** What a RouteStats holds, without the figures derived from it. Durations are whole milliseconds. */
  datatype Stats = Stats(name: string, hits: nat, errors: nat, durations: seq<int>)

  /** What a ClientTimingStats holds. */
  type Routes = map<string, Stats>

  datatype Sample = Sample(route: string, duration: int, status: int)

  predicate Succeeded(status: int) { 200 <= status < 300 }

  function Sampled(s: Stats, duration: int, status: int): Stats {
    if Succeeded(status) then s.(hits := s.hits + 1, durations := s.durations + [duration])
    else s.(hits := s.hits + 1, errors := s.errors + 1)
  }

  function StatsOf(m: Routes, route: string): Stats {
    if route in m then m[route] else Stats(route, 0, 0, [])
  }

  function Added(m: Routes, s: Sample): Routes {
    m[s.route := Sampled(StatsOf(m, s.route), s.duration, s.status)]
  }

  /** Plain accumulation of the first n samples. */
  function Accumulated(m: Routes, samples: seq<Sample>, n: nat): Routes
    requires n <= |samples|
  {
    if n == 0 then m else Added(Accumulated(m, samples, n - 1), samples[n - 1])
  }

  /** The durations of the successful samples of a route among the first n, in order. */
  function DurationsOf(samples: seq<Sample>, n: nat, route: string): seq<int>
    requires n <= |samples|
  {
    if n == 0 then []
    else
      var s := samples[n - 1];
      DurationsOf(samples, n - 1, route) + if s.route == route && 200 <= s.status < 300 then [s.duration] else []
  }

  /** How many of the first n samples are of a route. */
  function HitsOf(samples: seq<Sample>, n: nat, route: string): nat
    requires n <= |samples|
  {
    if n == 0 then 0 else HitsOf(samples, n - 1, route) + if samples[n - 1].route == route then 1 else 0
  }

  /** How many of them did not succeed. */
  function ErrorsOf(samples: seq<Sample>, n: nat, route: string): nat
    requires n <= |samples|
  {
    if n == 0 then 0
    else
      var s := samples[n - 1];
      ErrorsOf(samples, n - 1, route) + if s.route == route && !(200 <= s.status < 300) then 1 else 0
  }

  /**
   What accumulation makes of the samples, route by route: the durations of the successful ones in order, the number of
   all, and the number of the others; a route is reported exactly if there was a sample of it.
   */
  lemma {:induction false} AccumulatedExactly(samples: seq<Sample>, n: nat, route: string)
    requires n <= |samples|
    ensures var m := Accumulated(map[], samples, n);
            && (route in m <==> exists i :: 0 <= i < n && samples[i].route == route)
            && StatsOf(m, route) == Stats(route, HitsOf(samples, n, route), ErrorsOf(samples, n, route), DurationsOf(samples, n, route))
  {
    if n > 0 {
      AccumulatedExactly(samples, n - 1, route);
      assert (exists i :: 0 <= i < n && samples[i].route == route)
             <==> samples[n - 1].route == route || exists i :: 0 <= i < n - 1 && samples[i].route == route;
    }
  }

  /** RouteStats.Merge on values; None is the nil pointer. The later operand gives the name. */
  function MergedStats(a: Option<Stats>, b: Option<Stats>): Stats {
    match (a, b)
    case (None, None) => Stats("", 0, 0, [])
    case (Some(x), None) => x
    case (None, Some(y)) => y
    case (Some(x), Some(y)) => Stats(y.name, x.hits + y.hits, x.errors + y.errors, x.durations + y.durations)
  }

  function Lookup(m: Routes, route: string): Option<Stats> {
    if route in m then Some(m[route]) else None
  }

  function Merged(a: Routes, b: Routes): Routes {
    map route | route in a.Keys + b.Keys :: MergedStats(Lookup(a, route), Lookup(b, route))
  }

  // ---------------------------------------------------------------- laws of merging

  lemma MergedLookup(a: Routes, b: Routes, route: string)
    ensures Lookup(Merged(a, b), route) ==
            if route in a || route in b then Some(MergedStats(Lookup(a, route), Lookup(b, route))) else None
  {
  }

  lemma MergedStatsAssociative(x: Option<Stats>, y: Option<Stats>, z: Option<Stats>)
    ensures y.Some? ==> MergedStats(Some(MergedStats(x, y)), z) == MergedStats(x, Some(MergedStats(y, z)))
    ensures x.Some? ==> MergedStats(Some(MergedStats(x, None)), z) == MergedStats(x, z)
    ensures z.Some? ==> MergedStats(x, Some(MergedStats(None, z))) == MergedStats(x, z)
  {
    if x.Some? && y.Some? && z.Some? {
      ConcatAssociative(x.value.durations, y.value.durations, z.value.durations);
    }
  }

  lemma SameLookups(a: Routes, b: Routes)
    requires forall route :: Lookup(a, route) == Lookup(b, route)
    ensures a == b
  {
    forall route ensures route in a <==> route in b {
      assert Lookup(a, route) == Lookup(b, route);
    }
    forall route | route in a ensures a[route] == b[route] {
      assert Lookup(a, route) == Lookup(b, route);
    }
  }

  /** Merging is associative, and the empty statistics are neutral on both sides. */
  lemma MergedAssociative(a: Routes, b: Routes, c: Routes)
    ensures Merged(Merged(a, b), c) == Merged(a, Merged(b, c))
    ensures Merged(map[], a) == a && Merged(a, map[]) == a
  {
    MergedNothing(a);
    hide Merged, MergedStats;
    forall route ensures Lookup(Merged(Merged(a, b), c), route) == Lookup(Merged(a, Merged(b, c)), route) {
      MergedLookup(a, b, route);
      MergedLookup(b, c, route);
      MergedLookup(Merged(a, b), c, route);
      MergedLookup(a, Merged(b, c), route);
      MergedStatsAssociative(Lookup(a, route), Lookup(b, route), Lookup(c, route));
    }
    SameLookups(Merged(Merged(a, b), c), Merged(a, Merged(b, c)));
  }

  lemma MergedNothing(a: Routes)
    ensures Merged(a, map[]) == a && Merged(map[], a) == a
  {
  }

  /** Merging in one more route. */
  lemma MergeOneMore(a: Routes, b: Routes, route: string, s: Stats)
    requires route !in b
    ensures Merged(a, b)[route := MergedStats(Lookup(Merged(a, b), route), Some(s))] == Merged(a, b[route := s])
  {
    var left, right := Merged(a, b)[route := MergedStats(Lookup(Merged(a, b), route), Some(s))], Merged(a, b[route := s]);
    assert left.Keys == a.Keys + b.Keys + {route} == right.Keys;
  }

  /** Every hit is an error or has a duration. */
  ghost predicate Consistent(m: Routes) {
    forall route :: route in m ==> m[route].hits == m[route].errors + |m[route].durations|
  }

  lemma ConsistencyKept(a: Routes, b: Routes, s: Sample)
    requires Consistent(a) && Consistent(b)
    ensures Consistent(Added(a, s)) && Consistent(Merged(a, b))
  {
  }

  /** Every entry is filed under its own name. */
  ghost predicate Named(m: Routes) {
    forall route :: route in m ==> m[route].name == route
  }

  lemma AddedLookup(m: Routes, s: Sample, route: string)
    ensures Lookup(Added(m, s), route) ==
            if route == s.route then Some(Sampled(StatsOf(m, route), s.duration, s.status)) else Lookup(m, route)
  {
  }

  function OrEmpty(s: Option<Stats>, route: string): Stats {
    if s.Some? then s.value else Stats(route, 0, 0, [])
  }

  /** One route of AddAfterMerge. */
  lemma SampleAfterMerge(x: Option<Stats>, y: Option<Stats>, route: string, duration: int, status: int)
    requires (x.Some? ==> x.value.name == route) && (y.Some? ==> y.value.name == route)
    ensures Sampled(if x.None? && y.None? then OrEmpty(None, route) else MergedStats(x, y), duration, status)
            == MergedStats(x, Some(Sampled(OrEmpty(y, route), duration, status)))
  {
    if x.Some? && y.Some? {
      ConcatAssociative(x.value.durations, y.value.durations, [duration]);
    } else if x.Some? {
      assert x.value.durations + ([] + [duration]) == x.value.durations + [duration];
    }
  }

  /** A sample may be added before or after merging with what was logged earlier. */
  lemma AddAfterMerge(a: Routes, b: Routes, s: Sample)
    requires Named(a) && Named(b)
    ensures Added(Merged(a, b), s) == Merged(a, Added(b, s))
    ensures Named(Added(b, s))
  {
    assert Named(Added(b, s));
    forall route ensures Lookup(Added(Merged(a, b), s), route) == Lookup(Merged(a, Added(b, s)), route) {
      AddedLookup(Merged(a, b), s, route);
      AddedLookup(b, s, route);
      MergedLookup(a, b, route);
      MergedLookup(a, Added(b, s), route);
      if route == s.route {
        SampleAfterMerge(Lookup(a, route), Lookup(b, route), route, s.duration, s.status);
      }
      hide Merged, Added, MergedStats, Sampled;
    }
    SameLookups(Added(Merged(a, b), s), Merged(a, Added(b, s)));
  }

  // ---------------------------------------------------------------- the number of results

  /** The number of durations over all routes. */
  ghost function Total(m: Routes): nat
    decreases |m|
  {
    if m == map[] then 0
    else
      var route :| route in m;
      assert |m - {route}| < |m| by { Smaller(m, route); }
      |m[route].durations| + Total(m - {route})
  }

  lemma Smaller(m: Routes, route: string)
    requires route in m
    ensures |m - {route}| == |m| - 1
  {
    assert (m - {route}).Keys == m.Keys - {route};
  }

  /** The order of summation does not matter. */
  lemma {:induction false} TotalSplit(m: Routes, route: string)
    requires route in m
    ensures Total(m) == |m[route].durations| + Total(m - {route})
    decreases |m|
  {
    var first :| first in m && Total(m) == |m[first].durations| + Total(m - {first});
    if first != route {
      Smaller(m, first);
      Smaller(m, route);
      TotalSplit(m - {first}, route);
      TotalSplit(m - {route}, first);
      assert m - {first} - {route} == m - {route} - {first};
    }
  }

  lemma TotalUpdate(m: Routes, route: string, s: Stats)
    ensures Total(m[route := s]) + |StatsOf(m, route).durations| == Total(m) + |s.durations|
  {
    TotalSplit(m[route := s], route);
    assert m[route := s] - {route} == m - {route};
    if route in m {
      TotalSplit(m, route);
    } else {
      assert m - {route} == m;
    }
  }

  /** A sample adds one result if it succeeded, and none otherwise. */
  lemma TotalAdded(m: Routes, s: Sample)
    ensures Total(Added(m, s)) == Total(m) + if Succeeded(s.status) then 1 else 0
  {
    TotalUpdate(m, s.route, Sampled(StatsOf(m, s.route), s.duration, s.status));
  }

  /** The routes still to be visited by a loop over a map. */
  function Only(m: Routes, keys: set<string>): Routes {
    map route | route in keys && route in m :: m[route]
  }

  lemma OnlyFacts(m: Routes)
    ensures Only(m, m.Keys) == m && Only(m, {}) == map[]
  {
  }

  lemma TotalVisit(m: Routes, rest: set<string>, route: string)
    requires route in rest && rest <= m.Keys
    ensures Total(Only(m, rest)) == |m[route].durations| + Total(Only(m, rest - {route}))
  {
    TotalSplit(Only(m, rest), route);
    assert Only(m, rest) - {route} == Only(m, rest - {route});
  }

  lemma MergeVisit(a: Routes, m: Routes, rest: set<string>, route: string)
    requires route in rest && rest <= m.Keys
    ensures var before := Merged(a, Only(m, m.Keys - rest));
            before[route := MergedStats(Lookup(before, route), Some(m[route]))] == Merged(a, Only(m, m.Keys - (rest - {route})))
  {
    MergeOneMore(a, Only(m, m.Keys - rest), route, m[route]);
    assert Only(m, m.Keys - rest)[route := m[route]] == Only(m, m.Keys - (rest - {route}));
  }

  // ---------------------------------------------------------------- the objects

  class RouteStats {
    var name: string
    var numHits: nat
    var numErrors: nat
    var duration: seq<int>

    function Value(): Stats
      reads this
    {
      Stats(name, numHits, numErrors, duration)
    }

    constructor (name: string)
      ensures Value() == Stats(name, 0, 0, [])
    {
      this.name, numHits, numErrors, duration := name, 0, 0, [];
    }

    method AddSample(duration: int, status: int)
      modifies this
      ensures Value() == Sampled(old(Value()), duration, status)
      ensures name == old(name) && numHits == old(numHits) + 1
      ensures if 200 <= status < 300 then this.duration == old(this.duration) + [duration] && numErrors == old(numErrors)
              else this.duration == old(this.duration) && numErrors == old(numErrors) + 1
    {
      numHits := numHits + 1;
      if Succeeded(status) {
        this.duration := this.duration + [duration];
      } else {
        numErrors := numErrors + 1;
      }
    }

    /** Builds a fresh object and changes neither operand; either may be nil. */
    static method Merge(s: RouteStats?, other: RouteStats?) returns (r: RouteStats)
      ensures fresh(r)
      ensures r.Value() == MergedStats(if s == null then None else Some(s.Value()),
                                       if other == null then None else Some(other.Value()))
      ensures r.name == if other != null then other.name else if s != null then s.name else ""
      ensures r.numHits == (if s != null then s.numHits else 0) + (if other != null then other.numHits else 0)
      ensures r.numErrors == (if s != null then s.numErrors else 0) + (if other != null then other.numErrors else 0)
      ensures r.duration == (if s != null then s.duration else []) + (if other != null then other.duration else [])
    {
      r := new RouteStats("");
      if s != null {
        r.name := s.name;
        r.numHits := r.numHits + s.numHits;
        r.numErrors := r.numErrors + s.numErrors;
        r.duration := r.duration + s.duration;
      }
      if other != null {
        r.name := other.name;
        r.numHits := r.numHits + other.numHits;
        r.numErrors := r.numErrors + other.numErrors;
        r.duration := r.duration + other.duration;
      }
    }
  }

  class ClientTimingStats {
    var routes: map<string, RouteStats>

    /** No two routes share their statistics. */
    ghost predicate Valid()
      reads this
    {
      forall a, b :: a in routes && b in routes && a != b ==> routes[a] != routes[b]
    }

    function Contents(): Routes
      reads this, routes.Values
    {
      map route | route in routes :: routes[route].Value()
    }

    constructor ()
      ensures Valid() && routes == map[]
    {
      routes := map[];
    }

    method AddRouteSample(route: string, duration: int, status: int)
      requires Valid()
      modifies this, routes.Values
      ensures Valid() && Contents() == Added(old(Contents()), Sample(route, duration, status))
      ensures var before, after := old(Contents()), Contents();
              && after.Keys == before.Keys + {route}
              && (forall other :: other in before && other != route ==> after[other] == before[other])
              && after[route] == Stats(if route in before then before[route].name else route,
                                       (if route in before then before[route].hits else 0) + 1,
                                       (if route in before then before[route].errors else 0) + (if 200 <= status < 300 then 0 else 1),
                                       (if route in before then before[route].durations else [])
                                       + if 200 <= status < 300 then [duration] else [])
      ensures fresh(routes.Values - old(routes.Values))
    {
      if route in routes {
        routes[route].AddSample(duration, status);
      } else {
        var stats := new RouteStats(route);
        stats.AddSample(duration, status);
        routes := routes[route := stats];
      }
    }

    /** Ranges over the map in some order; the count does not depend on it. */
    method CountResults() returns (count: nat)
      ensures count == Total(Contents())
    {
      count := 0;
      var rest := routes.Keys;
      ghost var contents := Contents();
      assert contents.Keys == routes.Keys;
      OnlyFacts(contents);
      hide Only;
      while rest != {}
        invariant rest <= routes.Keys
        invariant count + Total(Only(contents, rest)) == Total(contents)
        decreases rest
      {
        var route :| route in rest;
        TotalVisit(contents, rest, route);
        count := count + |routes[route].duration|;
        rest := rest - {route};
      }
    }

    method Reset()
      modifies this
      ensures Valid() && routes == map[] && Contents() == map[]
    {
      routes := map[];
    }

    method Put(route: string, stats: RouteStats)
      requires Valid() && stats !in routes.Values
      modifies this
      ensures Valid() && routes == old(routes)[route := stats]
      ensures Contents() == old(Contents())[route := stats.Value()]
    {
      routes := routes[route := stats];
    }

    /** Adds all routes of another object, in some order; replaces entries and never changes one in place. */
    method MergeIn(other: ClientTimingStats)
      requires other != this && Valid()
      modifies this
      ensures Valid() && Contents() == Merged(old(Contents()), other.Contents())
    {
      hide Merged, MergedStats, Only;
      var rest := other.routes.Keys;
      ghost var source, start := other.Contents(), Contents();
      OnlyFacts(source);
      MergedNothing(start);
      assert source.Keys - rest == {};
      while rest != {}
        invariant Valid() && rest <= other.routes.Keys
        invariant Contents() == Merged(start, Only(source, source.Keys - rest))
        decreases rest
      {
        var route :| route in rest;
        var merged := RouteStats.Merge(if route in routes then routes[route] else null, other.routes[route]);
        MergeVisit(start, source, rest, route);
        assert Lookup(Contents(), route) == if route in routes then Some(routes[route].Value()) else None;
        Put(route, merged);
        rest := rest - {route};
      }
      assert source.Keys - rest == source.Keys;
    }

    /** Builds a fresh object and changes neither operand; either may be nil. */
    static method Merge(ts: ClientTimingStats?, timings: ClientTimingStats?) returns (r: ClientTimingStats)
      ensures fresh(r) && r.Valid()
      ensures r.Contents() == Merged(if ts == null then map[] else ts.Contents(),
                                     if timings == null then map[] else timings.Contents())
    {
      hide Merged;
      r := new ClientTimingStats();
      assert r.Contents() == map[];
      if ts != null {
        MergedNothing(ts.Contents());
        r.MergeIn(ts);
      } else {
        MergedNothing(map[]);
      }
      MergedNothing(r.Contents());
      if timings != null {
        r.MergeIn(timings);
      }
    }
  }
}
