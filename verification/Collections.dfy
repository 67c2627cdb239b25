/** Option and Result types, and the few facts about sequences that several components share. */
module Collections {
  datatype Option<+T> = None | Some(value: T)

  datatype Result<+T> = Ok(value: T) | Err(message: string)

  predicate Distinct<T(==)>(s: seq<T>) {
    forall i, j :: 0 <= i < j < |s| ==> s[i] != s[j]
  }

  /** The members of a sequence. */
  function Elements<T(==)>(s: seq<T>): set<T> {
    set x | x in s
  }

  /** What rand.Perm(n) returns: each number below n, once. */
  predicate IsPermutation(p: seq<nat>, n: nat) {
    |p| == n && Distinct(p) && forall i :: 0 <= i < n ==> p[i] < n
  }

  /** Concatenation of a list of lists. */
  function Flatten<T>(ss: seq<seq<T>>): seq<T> {
    if ss == [] then [] else ss[0] + Flatten(ss[1..])
  }

  lemma ConcatAssociative<T>(a: seq<T>, b: seq<T>, c: seq<T>)
    ensures (a + b) + c == a + (b + c)
  {
  }

  /** 0, 1, ..., n - 1. */
  function Numbers(n: nat): seq<nat> {
    seq(n, k => k)
  }

  lemma {:induction false} FlattenAppend<T>(ss: seq<seq<T>>, s: seq<T>)
    ensures Flatten(ss + [s]) == Flatten(ss) + s
  {
    if ss == [] {
      assert ss + [s] == [s];
    } else {
      FlattenAppend(ss[1..], s);
      assert (ss + [s])[1..] == ss[1..] + [s];
    }
  }

  /** A duplicate-free sequence has as many members as positions. */
  lemma {:induction false} DistinctCount<T>(s: seq<T>)
    requires Distinct(s)
    ensures |Elements(s)| == |s|
  {
    if s == [] {
      assert Elements(s) == {};
    } else {
      var front, last := s[..|s| - 1], s[|s| - 1];
      DistinctCount(front);
      assert Elements(s) == Elements(front) + {last};
      assert last !in front;
    }
  }

  /** The numbers below n, as a set. */
  function Below(n: nat): (r: set<nat>)
    ensures forall k: nat :: k in r <==> k < n
    ensures |r| == n
  {
    if n == 0 then {} else Below(n - 1) + {n - 1}
  }

  /** A permutation of the numbers below n reaches every one of them. */
  lemma PermutationReaches(p: seq<nat>, n: nat, v: nat)
    requires IsPermutation(p, n) && v < n
    ensures v in p
  {
    if v !in p {
      DistinctCount(p);
      assert Elements(p) <= Below(n) - {v};
      SubsetCount(Elements(p), Below(n) - {v});
    }
  }

  lemma {:induction false} SubsetCount<T>(a: set<T>, b: set<T>)
    requires a <= b
    ensures |a| <= |b|
    decreases a
  {
    if a != {} {
      var x :| x in a;
      SubsetCount(a - {x}, b - {x});
    }
  }

  lemma MulNext(a: int, b: int, c: nat)
    requires a < b
    ensures a * c + c <= b * c
  {
    var d: nat := b - a - 1;
    assert d * c >= 0;
    assert (a + d + 1) * c == a * c + d * c + c;
  }

  /** Two lists with the same elements still have the same elements when one is taken out of both. */
  lemma SameElementTakenOut<T>(a: seq<T>, b: seq<T>, j: nat)
    requires multiset(a) == multiset(b) && j < |b| && |a| > 0 && a[0] == b[j]
    ensures multiset(a[1..]) == multiset(b[..j] + b[j + 1..])
  {
    var front, back := b[..j], b[j + 1..];
    assert a == [a[0]] + a[1..];
    assert b == front + ([b[j]] + back);
    forall x ensures multiset(a[1..])[x] == multiset(front + back)[x] {
      assert multiset(a)[x] == multiset([a[0]])[x] + multiset(a[1..])[x];
      assert multiset(b)[x] == multiset(front)[x] + multiset([b[j]])[x] + multiset(back)[x];
    }
  }
}
