/**
 How many teams, and channels of a team, end up in each volume class. The source compares positions that start at
 zero with `>`, so that the counts are not the configured shares.
 */
module Volumes {
  import opened Collections
  import opened Membership
  import opened RandUtil

  function Min(a: int, b: int): int { if a < b then a else b }

  function Positive(a: int): int { if a < 0 then 0 else a }

  /** The positions below n in a class. */
  function Positions(l: Levels, v: Volume, n: nat): set<nat> {
    set s: nat | s < n && l.VolumeOf(s) == v
  }

  /** How many of n things are in a class, by the configured shares. */
  function Amount(l: Levels, v: Volume, n: nat): int {
    match v
    case High => Min(n, l.numHigh + 1)
    case Mid => Min(l.numMid, Positive(n - l.numHigh - 1))
    case Low => Positive(n - l.numHigh - l.numMid - 1)
  }

  /** Each class is one stretch of positions. */
  lemma PositionCount(l: Levels, v: Volume, n: nat)
    ensures |Positions(l, v, n)| == Amount(l, v, n)
  {
    var lo := match v case High => 0 case Mid => l.numHigh + 1 case Low => l.numHigh + l.numMid + 1;
    var hi := match v case High => l.numHigh + 1 case Mid => l.numHigh + l.numMid + 1 case Low => n;
    var a, b := Min(lo, n), Min(hi, n);
    var stretch := Interval(a, if b < a then a else b);
    assert forall s: nat :: s in Positions(l, v, n) <==> s in stretch;
    SameMembers(Positions(l, v, n), stretch);
  }

  lemma {:induction false} SameMembers(a: set<nat>, b: set<int>)
    requires forall x: nat :: x in a <==> x in b
    requires forall x :: x in b ==> x >= 0
    ensures |a| == |b|
    decreases a
  {
    if a == {} {
      assert forall x :: x !in b;
    } else {
      var x :| x in a;
      SameMembers(a - {x}, b - {x});
    }
  }

  /**
   Against the configured shares, when the high share fits: the high class gets one more than its share, unless the
   share is everything. When the high and mid shares fit together, the mid class gets exactly its share, unless it is
   cut by that one because nothing is left over; and the low class makes up for it.
   */
  lemma SharesExactly(l: Levels, n: nat)
    requires l.numHigh + l.numMid <= n
    ensures var rest := n - l.numHigh - l.numMid;
            && |Positions(l, High, n)| == l.numHigh + (if l.numHigh < n then 1 else 0)
            && |Positions(l, Mid, n)| == l.numMid - (if rest == 0 && l.numMid > 0 then 1 else 0)
            && |Positions(l, Low, n)| == rest - (if rest > 0 then 1 else 0)
    ensures |Positions(l, High, n)| == l.numHigh <==> l.numHigh == n
    ensures (forall v :: v in {High, Mid, Low} ==> |Positions(l, v, n)| == Share(l, v, n)) <==> l.numHigh == n
  {
    PositionCount(l, High, n);
    PositionCount(l, Mid, n);
    PositionCount(l, Low, n);
  }

  /** What the configuration asks for, the low class being the rest. */
  function Share(l: Levels, v: Volume, n: nat): int {
    match v
    case High => l.numHigh
    case Mid => l.numMid
    case Low => n - l.numHigh - l.numMid
  }

  /** With no high volume asked for, the first of any three is high, and the low class is one short. */
  lemma OneHighUnasked() returns (l: Levels)
    ensures l.numHigh == 0 && l.numMid == 1
    ensures |Positions(l, High, 3)| == 1 && |Positions(l, Mid, 3)| == 1 && |Positions(l, Low, 3)| == 1
    ensures Share(l, High, 3) == 0 && Share(l, Mid, 3) == 1 && Share(l, Low, 3) == 2
  {
    l := Levels(0, 1, 0, 0, 0, 0, 0, 0);
    SharesExactly(l, 3);
  }

  // ---------------------------------------------------------------- teams and channels

  /** The teams of a class: those the permutation puts at its positions. */
  function TeamsOf(p: Plan, v: Volume): set<nat>
    requires Valid(p)
  {
    set s | s in Positions(p.teamLevels, v, |p.teams|) && s < |p.teamPermutation| :: p.teamPermutation[s]
  }

  lemma {:induction false} ImageCount(permutation: seq<nat>, at: set<nat>)
    requires Distinct(permutation) && forall s :: s in at ==> s < |permutation|
    ensures |set s | s in at && s < |permutation| :: permutation[s]| == |at|
    decreases at
  {
    var image := set s | s in at && s < |permutation| :: permutation[s];
    if at == {} {
      assert image == {};
    } else {
      var x :| x in at;
      var rest := set s | s in at - {x} && s < |permutation| :: permutation[s];
      ImageCount(permutation, at - {x});
      assert image == rest + {permutation[x]};
      assert permutation[x] !in rest;
    }
  }

  /** Whatever permutation is drawn, so many teams are in each class. */
  lemma TeamVolumesExact(p: Plan, v: Volume)
    requires Valid(p)
    ensures |TeamsOf(p, v)| == Amount(p.teamLevels, v, |p.teams|)
    ensures p.teamLevels.numHigh <= |p.teams| ==>
              (|TeamsOf(p, High)| == p.teamLevels.numHigh <==> p.teamLevels.numHigh == |p.teams|)
  {
    var n := |p.teams|;
    PositionCount(p.teamLevels, v, n);
    PositionCount(p.teamLevels, High, n);
    ImageCount(p.teamPermutation, Positions(p.teamLevels, v, n));
    ImageCount(p.teamPermutation, Positions(p.teamLevels, High, n));
  }

  /** The channels of the s-th team in a class, by position. */
  function ChannelsOf(p: Plan, s: nat, v: Volume): set<nat>
    requires Valid(p) && s < |p.teams|
  {
    Positions(ChannelLevelsAt(p, s), v, |ChannelsAt(p, s)|)
  }

  lemma ChannelVolumesExact(p: Plan, s: nat, v: Volume)
    requires Valid(p) && s < |p.teams|
    ensures var l, n := ChannelLevelsAt(p, s), |ChannelsAt(p, s)|;
            && |ChannelsOf(p, s, v)| == Amount(l, v, n)
            && (l.numHigh <= n ==> (|ChannelsOf(p, s, High)| == l.numHigh <==> l.numHigh == n))
  {
    PositionCount(ChannelLevelsAt(p, s), v, |ChannelsAt(p, s)|);
    PositionCount(ChannelLevelsAt(p, s), High, |ChannelsAt(p, s)|);
  }
}
