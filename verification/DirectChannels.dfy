/**
 makeDirectChannels: the k-th direct channel joins the k-th pair of users, decoded from k by a closed
 formula with a square root, never by enumeration.
 */
module DirectChannels {
  import opened Collections

  /** The number of pairs among n + 1 things: 0, 1, 3, 6, ... */
  function Triangle(n: nat): (t: nat)
  {
    if n == 0 then 0 else Triangle(n - 1) + n
  }

  lemma {:induction false} TriangleClosed(n: nat)
    ensures 2 * Triangle(n) == n * (n + 1)
    ensures Triangle(n) == n * (n + 1) / 2
  {
    if n > 0 {
      TriangleClosed(n - 1);
      assert n * (n + 1) == (n - 1) * n + 2 * n;
    }
  }

  /** The largest integer whose square is at most d. */
  function FloorSqrt(d: nat): (r: nat)
    ensures r * r <= d < (r + 1) * (r + 1)
  {
    if d == 0 then 0
    else
      var r := FloorSqrt(d - 1);
      if (r + 1) * (r + 1) <= d then r + 1 else r
  }

  /** The number under the square root. */
  function Discriminant(n: nat, k: nat): int { -8 * k + 4 * n * (n - 1) - 7 }

  /** int(math.Floor(math.Sqrt(d) / 2.0 - 0.5)), over the integers. */
  function HalfRoot(d: nat): int { (FloorSqrt(d) - 1) / 2 }

  lemma RealSquares(x: real, y: real)
    requires 0.0 <= x && 0.0 <= y
    ensures x * x <= y * y <==> x <= y
  {
    if x <= y {
      assert x * x <= x * y;
      assert x * y <= y * y;
    } else {
      StrictProduct(x - y, x + y);
      assert (x - y) * (x + y) == x * x - y * y;
    }
  }

  lemma StrictProduct(a: real, b: real)
    requires a > 0.0 && b > 0.0
    ensures a * b > 0.0
  {
  }

  lemma FloorSqrtReal(d: nat, root: real)
    requires root >= 0.0 && root * root == d as real
    ensures FloorSqrt(d) as real <= root < (FloorSqrt(d) + 1) as real
  {
    var r := FloorSqrt(d);
    SquareAsReal(r);
    SquareAsReal(r + 1);
    RealSquares(r as real, root);
    RealSquares((r + 1) as real, root);
  }

  lemma SquareAsReal(r: nat)
    ensures r as real * r as real == (r * r) as real
  {
  }

  lemma FloorHalf(r: nat, root: real)
    requires r as real <= root < (r + 1) as real
    ensures (r - 1) / 2 == (root / 2.0 - 0.5).Floor
  {
    var h := (r - 1) / 2;
    assert 2 * h + 1 <= r <= 2 * h + 2;
    assert h as real <= root / 2.0 - 0.5 < h as real + 1.0;
  }

  /** The integer form is the source's expression, evaluated with an exact square root. */
  lemma HalfRootExact(d: nat, root: real)
    requires root >= 0.0 && root * root == d as real
    ensures HalfRoot(d) == (root / 2.0 - 0.5).Floor
  {
    FloorSqrtReal(d, root);
    FloorHalf(FloorSqrt(d), root);
  }

  /** The pair of user numbers decoded from k, exactly as written in the source. */
  function Decode(n: nat, k: nat): (int, int)
    requires Discriminant(n, k) >= 0
  {
    var i := n - 2 - HalfRoot(Discriminant(n, k));
    var j := k + i + 1 - n * (n - 1) / 2 + (n - i) * ((n - i) - 1) / 2;
    (i, j)
  }

  /** The number of pairs that come before (i, j) when all pairs of n users are listed row by row. */
  function PairsBefore(n: nat, i: nat, j: nat): nat
    requires i < j < n
  {
    RowStart(n, i) + (j - i - 1)
  }

  /** Row i lists the pairs whose smaller member is i; there are n - 1 - i of them. */
  function RowStart(n: nat, i: nat): nat
    requires i < n
  {
    if i == 0 then 0 else RowStart(n, i - 1) + (n - i)
  }

  lemma {:induction false} RowStartClosed(n: nat, i: nat)
    requires i < n
    ensures RowStart(n, i) + Triangle(n - 1 - i) == Triangle(n - 1)
    decreases i
  {
    if i > 0 {
      RowStartClosed(n, i - 1);
    }
  }

  /** With m pairs left after the k-th, the discriminant is 8 m + 1 and its half root finds the row. */
  lemma HalfRootRow(m: nat, r: nat)
    requires Triangle(r) <= m < Triangle(r + 1)
    ensures HalfRoot(8 * m + 1) == r
  {
    OddSquare(r);
    OddSquare(r + 1);
    Squares(2 * r + 1, FloorSqrt(8 * m + 1), 2 * (r + 1) + 1, 8 * m + 1);
  }

  lemma OddSquare(r: nat)
    ensures (2 * r + 1) * (2 * r + 1) == 8 * Triangle(r) + 1
  {
    TriangleClosed(r);
    assert (2 * r + 1) * (2 * r + 1) == 4 * (r * (r + 1)) + 1;
  }

  lemma Squares(a: nat, q: nat, b: nat, d: nat)
    requires a * a <= d < b * b && q * q <= d < (q + 1) * (q + 1)
    ensures a <= q < b
  {
    if q < a {
      SquareMonotone(q + 1, a);
    }
    if b <= q {
      SquareMonotone(b, q);
    }
  }

  lemma SquareMonotone(a: nat, b: nat)
    requires a <= b
    ensures a * a <= b * b
  {
    var d: nat := b - a;
    assert (a + d) * (a + d) == a * a + 2 * (a * d) + d * d;
    assert a * d >= 0 && d * d >= 0;
  }

  /** Decoding inverts the row-by-row position of a pair. */
  lemma DecodeInvertsPosition(n: nat, i: nat, j: nat)
    requires i < j < n
    ensures PairsBefore(n, i, j) < Triangle(n - 1)
    ensures Discriminant(n, PairsBefore(n, i, j)) >= 0
    ensures Decode(n, PairsBefore(n, i, j)) == (i, j)
  {
    var k, r := PairsBefore(n, i, j), n - 2 - i;
    RowStartClosed(n, i);
    var m := Triangle(n - 1) - 1 - k;
    assert Triangle(r) <= m < Triangle(r + 1);
    HalfRootRow(m, r);
    DecodeByTriangles(n, k, r);
  }

  /** The decoded pair, with the products replaced by triangular numbers. */
  lemma DecodeByTriangles(n: nat, k: nat, r: nat)
    requires n >= 2 && k < Triangle(n - 1) && r <= n - 2
    requires HalfRoot(8 * (Triangle(n - 1) - 1 - k) + 1) == r
    ensures Discriminant(n, k) >= 0
    ensures Decode(n, k) == (n - 2 - r, k + (n - 2 - r) + 1 - Triangle(n - 1) + Triangle(r + 1))
  {
    var i := n - 2 - r;
    assert Discriminant(n, k) == 8 * (Triangle(n - 1) - 1 - k) + 1 by { DiscriminantOf(n, k); }
    assert n * (n - 1) / 2 == Triangle(n - 1) by { DiscriminantOf(n, k); }
    assert (n - i) * ((n - i) - 1) / 2 == Triangle(r + 1) by { ColumnOf(n, i); }
  }

  lemma DiscriminantOf(n: nat, k: nat)
    requires n >= 1
    ensures n * (n - 1) / 2 == Triangle(n - 1)
    ensures Discriminant(n, k) == 8 * (Triangle(n - 1) - 1 - k) + 1
  {
    TriangleClosed(n - 1);
    assert (n - 1) * n == n * (n - 1);
    assert 4 * n * (n - 1) == 4 * (n * (n - 1));
  }

  lemma ColumnOf(n: nat, i: nat)
    requires i < n
    ensures (n - i) * ((n - i) - 1) / 2 == Triangle(n - 1 - i)
  {
    TriangleClosed(n - 1 - i);
    var r := n - 1 - i;
    assert (n - i) * ((n - i) - 1) == (r + 1) * r == r * (r + 1);
  }

  /** Every number below n (n - 1) / 2 is the position of a pair. */
  lemma {:induction false} PairAt(n: nat, k: nat, row: nat) returns (i: nat, j: nat)
    requires row < n && RowStart(n, row) <= k < Triangle(n - 1)
    ensures i < j < n && PairsBefore(n, i, j) == k
    decreases n - row
  {
    RowStartClosed(n, row);
    if k < RowStart(n, row) + (n - 1 - row) {
      i, j := row, row + 1 + (k - RowStart(n, row));
    } else {
      assert row + 1 < n;
      i, j := PairAt(n, k, row + 1);
    }
  }

  /**
   Triangular decoding: for every n and every k below n (n - 1) / 2 the formula yields 0 <= i < j < n, and
   the pair it yields is the one with k pairs before it.
   */
  lemma DecodeCorrect(n: nat, k: nat)
    requires n >= 1 && k < n * (n - 1) / 2
    ensures Discriminant(n, k) >= 0
    ensures var (i, j) := Decode(n, k); 0 <= i < j < n && PairsBefore(n, i, j) == k
  {
    TriangleClosed(n - 1);
    assert n * (n - 1) == (n - 1) * n;
    var i, j := PairAt(n, k, 0);
    DecodeInvertsPosition(n, i, j);
  }

  // ---------------------------------------------------------------- the generator

  /** The cap on the number of channels, with Go's truncating division. */
  function Cap(n: nat): int { n / 2 * (n - 1) }

  /** The cap never admits a channel beyond the last pair; it is the promised maximum unless n is odd and above 1. */
  lemma CapIsSafe(n: nat)
    ensures Cap(n) <= n * (n - 1) / 2
    ensures Cap(n) == n * (n - 1) / 2 <==> n % 2 == 0 || n == 1
    ensures Cap(n) == if n % 2 == 0 then n * (n - 1) / 2 else n * (n - 1) / 2 - (n - 1) / 2
  {
    var h := n / 2;
    if n % 2 == 0 {
      assert n == 2 * h;
      assert n * (n - 1) == 2 * (h * (n - 1)) by { assert 2 * h * (n - 1) == 2 * (h * (n - 1)); }
    } else {
      assert n == 2 * h + 1;
      assert n * (n - 1) == 2 * (h * (n - 1)) + (n - 1) by {
        assert (2 * h + 1) * (n - 1) == 2 * h * (n - 1) + (n - 1) == 2 * (h * (n - 1)) + (n - 1);
      }
      assert n * (n - 1) / 2 == h * (n - 1) + h;
    }
  }

  function Requested(n: nat, requested: nat): int {
    if requested > Cap(n) then Cap(n) else requested
  }

  /** The two members of a direct channel, as positions in the user list. */
  datatype Pair = Pair(lo: nat, hi: nat)

  /**
   Generates the channels in row order, whatever permutation was drawn: the source ranges over the
   permutation's indices. Every index is in range and no pair occurs twice.
   */
  method MakeDirectChannels(usernames: seq<string>, requested: nat) returns (members: seq<(string, string)>, pairs: seq<Pair>)
    ensures |pairs| == |members|
    ensures var n := |usernames|; |pairs| == if requested > n / 2 * (n - 1) then n / 2 * (n - 1) else requested
    ensures forall k :: 0 <= k < |pairs| ==>
      && pairs[k].lo < pairs[k].hi < |usernames|
      && PairsBefore(|usernames|, pairs[k].lo, pairs[k].hi) == k
      && members[k] == (usernames[pairs[k].lo], usernames[pairs[k].hi])
    ensures Distinct(pairs)
  {
    var n := |usernames|;
    var count := Requested(n, requested);
    members, pairs := [], [];
    CapNotNegative(n);
    for k := 0 to count
      invariant |pairs| == |members| == k
      invariant forall m :: 0 <= m < k ==>
        && pairs[m].lo < pairs[m].hi < n
        && PairsBefore(n, pairs[m].lo, pairs[m].hi) == m
        && members[m] == (usernames[pairs[m].lo], usernames[pairs[m].hi])
    {
      CapIsSafe(n);
      DecodeCorrect(n, k);
      var (i, j) := Decode(n, k);
      pairs := pairs + [Pair(i, j)];
      members := members + [(usernames[i], usernames[j])];
    }
  }

  lemma CapNotNegative(n: nat)
    ensures Cap(n) >= 0
    ensures Cap(n) > 0 ==> n >= 2
  {
    if n >= 1 {
      assert n / 2 * (n - 1) >= 0;
    }
  }
}
