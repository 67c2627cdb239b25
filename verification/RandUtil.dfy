/**
 randutil.go: a number in a range, an in-place shuffle and a weighted choice. What math/rand draws is an
 explicit input, so that "uniform" and "weighted" become counting statements about the inputs.
 */
module RandUtil {
  import opened Collections

  /** r.Intn(bound) yields any number below its positive bound. */
  predicate IsDraw(draw: int, bound: int) {
    0 <= draw < bound
  }

  function IntRange(min: int, max: int, draw: int): (r: Result<int>)
    requires max > min ==> IsDraw(draw, max - min)
    ensures r.Ok? <==> min <= max
    ensures r.Ok? && min < max ==> min <= r.value < max
    ensures min == max ==> r == Ok(max)
  {
    if min > max then Err("bad params")
    else if max == min then Ok(max)
    else Ok(min + draw)
  }

  /** Every number of a non-empty range is returned for exactly one draw. */
  lemma IntRangeUniform(min: int, max: int, v: int)
    requires min <= v < max
    ensures IsDraw(v - min, max - min) && IntRange(min, max, v - min) == Ok(v)
    ensures forall draw :: IsDraw(draw, max - min) && IntRange(min, max, draw) == Ok(v) ==> draw == v - min
  {
  }

  // ---------------------------------------------------------------- Shuffle

  function Swap<T>(s: seq<T>, i: nat, j: nat): seq<T>
    requires i < |s| && j < |s|
  {
    s[i := s[j]][j := s[i]]
  }

  /** One draw per position, the one at i from [0, i]. (Position 0 needs no draw; its entry is 0.) */
  predicate IsDraws(d: seq<nat>, n: nat) {
    |d| == n && forall i :: 0 <= i < n ==> d[i] <= i
  }

  /** The positions |d| - 1, ..., 1 are swapped, in this order, with the positions drawn for them. */
  function Shuffled<T>(s: seq<T>, d: seq<nat>): (r: seq<T>)
    requires IsDraws(d, |d|) && |d| <= |s|
    ensures |r| == |s|
    ensures forall k :: |d| <= k < |s| ==> r[k] == s[k]
    ensures |d| > 1 ==> r[|d| - 1] == s[d[|d| - 1]]
    decreases |d|
  {
    if |d| <= 1 then s
    else Shuffled(Swap(s, |d| - 1, d[|d| - 1]), d[..|d| - 1])
  }

  method Shuffle<T>(a: array<T>, draws: seq<nat>)
    requires IsDraws(draws, a.Length)
    modifies a
    ensures a[..] == Shuffled(old(a[..]), draws)
    ensures multiset(a[..]) == multiset(old(a[..]))
  {
    var i := a.Length - 1;
    assert draws[..i + 1] == draws;
    while i > 0
      invariant -1 <= i < a.Length && (i == -1 ==> a.Length == 0)
      invariant Shuffled(a[..], draws[..i + 1]) == Shuffled(old(a[..]), draws)
    {
      var j := IntRange(0, i + 1, draws[i]).value;
      ghost var before := a[..];
      a[i], a[j] := a[j], a[i];
      assert a[..] == Swap(before, i, j);
      assert draws[..i + 1][..i] == draws[..i];
      i := i - 1;
    }
    ShuffledPermutes(old(a[..]), draws);
  }

  lemma SwapPermutes<T>(s: seq<T>, i: nat, j: nat)
    requires i < |s| && j < |s|
    ensures multiset(Swap(s, i, j)) == multiset(s)
  {
  }

  lemma SwapKeepsDistinct<T>(s: seq<T>, i: nat, j: nat)
    requires i < |s| && j < |s| && Distinct(s)
    ensures Distinct(Swap(s, i, j))
  {
  }

  /** Whatever is drawn, the result is a rearrangement. */
  lemma {:induction false} ShuffledPermutes<T>(s: seq<T>, d: seq<nat>)
    requires IsDraws(d, |d|) && |d| <= |s|
    ensures multiset(Shuffled(s, d)) == multiset(s)
    decreases |d|
  {
    if |d| > 1 {
      SwapPermutes(s, |d| - 1, d[|d| - 1]);
      ShuffledPermutes(Swap(s, |d| - 1, d[|d| - 1]), d[..|d| - 1]);
    }
  }

  /** Different draws give different arrangements of distinct elements. */
  lemma {:induction false} ShuffledInjective<T>(s: seq<T>, d: seq<nat>, e: seq<nat>)
    requires Distinct(s) && IsDraws(d, |d|) && IsDraws(e, |e|) && |d| == |e| <= |s|
    requires Shuffled(s, d) == Shuffled(s, e)
    ensures d == e
    decreases |d|
  {
    if |d| > 1 {
      var i := |d| - 1;
      assert Shuffled(s, d)[i] == s[d[i]] && Shuffled(s, e)[i] == s[e[i]];
      assert d[i] == e[i];
      SwapKeepsDistinct(s, i, d[i]);
      ShuffledInjective(Swap(s, i, d[i]), d[..i], e[..i]);
      assert d == d[..i] + [d[i]] && e == e[..i] + [e[i]];
    }
  }

  lemma MultisetDistinct<T>(s: seq<T>, t: seq<T>)
    requires Distinct(s) && multiset(s) == multiset(t)
    ensures Distinct(t)
  {
    forall i, j | 0 <= i < j < |t| ensures t[i] != t[j] {
      if t[i] == t[j] {
        assert t == t[..i] + [t[i]] + t[i + 1..j] + [t[j]] + t[j + 1..];
        assert multiset(t)[t[i]] >= 2;
        DistinctMultiplicity(s, t[i]);
        assert false;
      }
    }
  }

  lemma {:induction false} DistinctMultiplicity<T>(s: seq<T>, x: T)
    requires Distinct(s)
    ensures multiset(s)[x] <= 1
  {
    if s != [] {
      var front, last := s[..|s| - 1], s[|s| - 1];
      assert s == front + [last];
      DistinctMultiplicity(front, x);
      if x == last {
        assert x !in front;
      }
    }
  }

  /** The element wanted at position i, the last one still out of place, is at a position the draw can name. */
  lemma WantedPosition<T>(s: seq<T>, t: seq<T>, i: nat) returns (j: nat)
    requires Distinct(s) && multiset(s) == multiset(t) && i < |s| == |t|
    requires forall k :: i < k < |s| ==> s[k] == t[k]
    ensures j <= i && s[j] == t[i]
  {
    MultisetDistinct(s, t);
    assert t[i] in multiset(s);
    j :| 0 <= j < |s| && s[j] == t[i];
  }

  /** Every arrangement of distinct elements that agrees with s from position n on is reached. */
  lemma {:induction false} Unshuffle<T>(s: seq<T>, t: seq<T>, n: nat) returns (d: seq<nat>)
    requires Distinct(s) && multiset(s) == multiset(t) && n <= |s| == |t|
    requires forall k :: n <= k < |s| ==> s[k] == t[k]
    ensures IsDraws(d, n) && Shuffled(s, d) == t
    decreases n
  {
    if n == 0 {
      d := [];
      assert s == t;
    } else if n == 1 {
      d := [0];
      FirstForced(s, t);
    } else {
      var j := WantedPosition(s, t, n - 1);
      var u := WithLastPlaced(s, t, n - 1, j);
      var rest := Unshuffle(u, t, n - 1);
      d := rest + [j];
      OneMoreDraw(s, rest, j);
    }
  }

  lemma WithLastPlaced<T>(s: seq<T>, t: seq<T>, i: nat, j: nat) returns (u: seq<T>)
    requires Distinct(s) && multiset(s) == multiset(t) && j <= i < |s| == |t| && s[j] == t[i]
    requires forall k :: i < k < |s| ==> s[k] == t[k]
    ensures u == Swap(s, i, j) && |u| == |s|
    ensures Distinct(u) && multiset(u) == multiset(t)
    ensures forall k :: i <= k < |u| ==> u[k] == t[k]
  {
    u := Swap(s, i, j);
    SwapPermutes(s, i, j);
    SwapKeepsDistinct(s, i, j);
  }

  lemma OneMoreDraw<T>(s: seq<T>, rest: seq<nat>, j: nat)
    requires IsDraws(rest, |rest|) && 0 < |rest| < |s| && j <= |rest|
    ensures IsDraws(rest + [j], |rest| + 1)
    ensures Shuffled(s, rest + [j]) == Shuffled(Swap(s, |rest|, j), rest)
  {
    assert (rest + [j])[..|rest|] == rest;
  }

  lemma FirstForced<T>(s: seq<T>, t: seq<T>)
    requires |s| == |t| > 0 && multiset(s) == multiset(t) && s[1..] == t[1..]
    ensures s == t
  {
    assert s == [s[0]] + s[1..] && t == [t[0]] + t[1..];
    assert multiset(s)[s[0]] == multiset(t)[s[0]];
  }

  /** An unbiased shuffle: each arrangement of distinct elements comes from exactly one vector of draws. */
  lemma ShuffleUnbiased<T>(s: seq<T>, t: seq<T>)
    requires Distinct(s) && multiset(t) == multiset(s)
    ensures exists d :: IsDraws(d, |s|) && Shuffled(s, d) == t
    ensures forall d, e | IsDraws(d, |s|) && IsDraws(e, |s|) && Shuffled(s, d) == t && Shuffled(s, e) == t :: d == e
  {
    assert |s| == |multiset(s)| == |multiset(t)| == |t|;
    var d := Unshuffle(s, t, |s|);
    forall e, f | IsDraws(e, |s|) && IsDraws(f, |s|) && Shuffled(s, e) == t && Shuffled(s, f) == t ensures e == f {
      ShuffledInjective(s, e, f);
    }
  }

  // ---------------------------------------------------------------- WeightedChoice

  datatype Choice = Choice(item: nat, weight: int)

  /** The sum of the first k weights. */
  function Prefix(c: seq<Choice>, k: nat): int
    requires k <= |c|
  {
    if k == 0 then 0 else Prefix(c, k - 1) + c[k - 1].weight
  }

  function Sum(c: seq<Choice>): int { Prefix(c, |c|) }

  /** Position i is where the running sum of the weights first exceeds v. */
  predicate FirstAbove(c: seq<Choice>, v: int, i: int) {
    && 0 <= i < |c|
    && v < Prefix(c, i + 1)
    && forall k :: 0 < k <= i ==> Prefix(c, k) <= v
  }

  /** The running sum of the weights never exceeds v. */
  predicate NoneAbove(c: seq<Choice>, v: int) {
    forall k :: 0 < k <= |c| ==> Prefix(c, k) <= v
  }

  /** No draw picks a choice: the weights sum to less than zero, or to zero without ever getting above it. */
  predicate Unpickable(c: seq<Choice>) {
    |c| >= 2 && (Sum(c) < 0 || (Sum(c) == 0 && NoneAbove(c, 0)))
  }

  /**
   Returns the position of the choice picked. With two or more choices the draw is made below the sum of
   the weights; when that sum is zero IntRange makes no draw and the value is zero.
   */
  method WeightedChoice(choices: seq<Choice>, draw: int) returns (r: Result<nat>)
    requires |choices| >= 2 && Sum(choices) > 0 ==> IsDraw(draw, Sum(choices))
    ensures |choices| == 1 ==> r == Ok(0)
    ensures |choices| >= 2 && r.Ok? ==> FirstAbove(choices, if Sum(choices) > 0 then draw else 0, r.value)
    ensures r.Err? <==> choices == [] || Unpickable(choices)
  {
    if |choices| == 0 {
      return Err("Was given no choices!");
    }
    if |choices| == 1 {
      return Ok(0);
    }
    var sum := 0;
    for k := 0 to |choices|
      invariant sum == Prefix(choices, k)
    {
      sum := sum + choices[k].weight;
    }
    var range := IntRange(0, sum, draw);
    if range.Err? {
      return Err(range.message);
    }
    var randomInt := range.value;
    for i := 0 to |choices|
      invariant randomInt == range.value - Prefix(choices, i)
      invariant forall k :: 0 < k <= i ==> Prefix(choices, k) <= range.value
    {
      randomInt := randomInt - choices[i].weight;
      if randomInt < 0 {
        return Ok(i);
      }
    }
    assert Prefix(choices, |choices|) == Sum(choices);
    return Err("Internal error - code should not reach this point");
  }

  predicate NonNegative(c: seq<Choice>) {
    forall k :: 0 <= k < |c| ==> c[k].weight >= 0
  }

  lemma {:induction false} PrefixMonotone(c: seq<Choice>, j: nat, k: nat)
    requires NonNegative(c) && j <= k <= |c|
    ensures Prefix(c, j) <= Prefix(c, k)
    decreases k
  {
    if j < k {
      PrefixMonotone(c, j, k - 1);
    }
  }

  /** The draws that pick a position form the interval between two prefix sums. */
  lemma PickedInterval(c: seq<Choice>, v: int, i: nat)
    requires NonNegative(c) && v >= 0
    ensures FirstAbove(c, v, i) <==> i < |c| && Prefix(c, i) <= v < Prefix(c, i + 1)
  {
    if i < |c| && Prefix(c, i) <= v {
      forall k | 0 < k <= i ensures Prefix(c, k) <= v {
        PrefixMonotone(c, k, i);
      }
    }
  }

  /** A sum that exceeds v is reached at some first position. */
  lemma {:induction false} SomeFirstAbove(c: seq<Choice>, v: int, k: nat) returns (i: nat)
    requires 0 < k <= |c| && v < Prefix(c, k)
    ensures FirstAbove(c, v, i) && i < k
    decreases k
  {
    if j :| 0 < j < k && v < Prefix(c, j) {
      i := SomeFirstAbove(c, v, j);
    } else {
      i := k - 1;
    }
  }

  function Interval(lo: int, hi: int): (r: set<int>)
    requires lo <= hi
    ensures forall x :: x in r <==> lo <= x < hi
    ensures |r| == hi - lo
    decreases hi - lo
  {
    if lo == hi then {} else Interval(lo, hi - 1) + {hi - 1}
  }

  /** The draws for which WeightedChoice returns position i. */
  function DrawsFor(c: seq<Choice>, i: nat): set<int>
    requires Sum(c) >= 0
  {
    set v | v in Interval(0, Sum(c)) && FirstAbove(c, v, i)
  }

  /**
   With weights that are not negative, exactly Weight_i of the possible draws pick choice i; and if the
   weights are not all zero, every draw picks some choice.
   */
  lemma WeightsExact(c: seq<Choice>, i: nat)
    requires NonNegative(c) && i < |c| && Sum(c) >= 0
    ensures |DrawsFor(c, i)| == c[i].weight
    ensures forall v :: IsDraw(v, Sum(c)) ==> exists k :: FirstAbove(c, v, k)
  {
    PrefixMonotone(c, 0, i);
    PrefixMonotone(c, i, i + 1);
    PrefixMonotone(c, i + 1, |c|);
    forall v ensures v in DrawsFor(c, i) <==> v in Interval(Prefix(c, i), Prefix(c, i + 1)) {
      if v >= 0 {
        PickedInterval(c, v, i);
      }
    }
    assert DrawsFor(c, i) == Interval(Prefix(c, i), Prefix(c, i + 1));
    forall v | IsDraw(v, Sum(c)) ensures exists k :: FirstAbove(c, v, k) {
      var k := SomeFirstAbove(c, v, |c|);
    }
  }

  lemma {:induction false} ZeroWeights(c: seq<Choice>, n: nat)
    requires n <= |c| && forall k :: 0 <= k < |c| ==> c[k].weight == 0
    ensures forall k :: 0 <= k <= n ==> Prefix(c, k) == 0
  {
    if n > 0 {
      ZeroWeights(c, n - 1);
    }
  }

  /**
   When the loop runs out of choices, for any weights whose sum is not negative and whatever was drawn: the running
   sum exceeds the value for no choice exactly if the sum is zero and no running sum is positive.
   */
  lemma InternalErrorExactly(c: seq<Choice>, draw: int)
    requires |c| >= 2 && Sum(c) >= 0 && (Sum(c) > 0 ==> IsDraw(draw, Sum(c)))
    ensures var v := if Sum(c) > 0 then draw else 0;
            (forall i :: !FirstAbove(c, v, i)) <==> Unpickable(c)
  {
    var v := if Sum(c) > 0 then draw else 0;
    if Unpickable(c) {
      forall i ensures !FirstAbove(c, v, i) {
        if 0 <= i < |c| {
          assert Prefix(c, i + 1) <= 0;
        }
      }
    } else {
      var k := |c|;
      if Sum(c) == 0 {
        k := SomePositive(c);
      }
      var i := SomeFirstAbove(c, v, k);
    }
  }

  lemma SomePositive(c: seq<Choice>) returns (k: nat)
    requires !NoneAbove(c, 0)
    ensures 0 < k <= |c| && Prefix(c, k) > 0
  {
    k :| 0 < k <= |c| && !(Prefix(c, k) <= 0);
  }

  /** For weights that are not negative: exactly when all of them are zero. */
  lemma UnpickableExactly(c: seq<Choice>)
    requires |c| >= 2 && NonNegative(c)
    ensures Unpickable(c) <==> forall k :: 0 <= k < |c| ==> c[k].weight == 0
  {
    if forall k :: 0 <= k < |c| ==> c[k].weight == 0 {
      ZeroWeights(c, |c|);
    } else {
      var k :| 0 <= k < |c| && c[k].weight != 0;
      PrefixMonotone(c, 0, k);
      PrefixMonotone(c, k + 1, |c|);
    }
  }
}
