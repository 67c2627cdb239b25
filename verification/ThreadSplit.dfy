/**
 ThreadSplit cuts an index range among goroutines; loginAsUsers runs one login per index through it, each writing
 its own slot, and then drops the empty slots.
 */
module ThreadSplit {
  import opened Collections

  function StartOf(arrayLen: nat, numThreads: nat, threadNum: nat): nat
    requires threadNum < numThreads
  {
    (arrayLen / numThreads) * threadNum
  }

  function EndOf(arrayLen: nat, numThreads: nat, threadNum: nat): nat
    requires threadNum < numThreads
  {
    if threadNum == numThreads - 1 then arrayLen else (arrayLen / numThreads) * (threadNum + 1)
  }

  /** One goroutine on its own: the indices it calls the action with, in order. */
  method Worker(arrayLen: nat, numThreads: nat, threadNum: nat) returns (called: seq<nat>)
    requires threadNum < numThreads
    ensures |called| == EndOf(arrayLen, numThreads, threadNum) - StartOf(arrayLen, numThreads, threadNum)
    ensures forall k :: 0 <= k < |called| ==> called[k] == StartOf(arrayLen, numThreads, threadNum) + k
    ensures var share := arrayLen / numThreads;
            && |called| == (if threadNum == numThreads - 1 then arrayLen - share * threadNum else share)
            && (|called| > 0 ==> called[0] == share * threadNum)
  {
    ThreadBounds(arrayLen, numThreads, threadNum);
    called := [];
    var end;
    if threadNum == numThreads - 1 {
      end := arrayLen;
    } else {
      end := (arrayLen / numThreads) * (threadNum + 1);
    }
    var start := (arrayLen / numThreads) * threadNum;
    for i := start to end
      invariant |called| == i - start
      invariant forall k :: 0 <= k < |called| ==> called[k] == start + k
    {
      called := called + [i];
    }
  }

  /** next[t] is the index thread t calls the action with next; `called` is every call so far, in order. */
  datatype State = State(next: seq<nat>, called: seq<nat>)

  function Start(arrayLen: nat, numThreads: nat): State {
    State(seq(numThreads, t requires 0 <= t < numThreads => StartOf(arrayLen, numThreads, t)), [])
  }

  predicate Enabled(arrayLen: nat, s: State, t: nat) {
    t < |s.next| && s.next[t] < EndOf(arrayLen, |s.next|, t)
  }

  /** Thread t calls the action once. */
  function Step(s: State, t: nat): State
    requires t < |s.next|
  {
    State(s.next[t := s.next[t] + 1], s.called + [s.next[t]])
  }

  predicate ValidRun(arrayLen: nat, s: State, schedule: seq<nat>)
    decreases |schedule|
  {
    |schedule| > 0 ==> Enabled(arrayLen, s, schedule[0]) && ValidRun(arrayLen, Step(s, schedule[0]), schedule[1..])
  }

  function Run(arrayLen: nat, s: State, schedule: seq<nat>): State
    requires ValidRun(arrayLen, s, schedule)
    decreases |schedule|
  {
    if |schedule| == 0 then s else Run(arrayLen, Step(s, schedule[0]), schedule[1..])
  }

  /** wg.Wait returns: no thread has anything left to do. */
  predicate Finished(arrayLen: nat, s: State) {
    forall t :: 0 <= t < |s.next| ==> s.next[t] >= EndOf(arrayLen, |s.next|, t)
  }

  lemma ThreadBounds(arrayLen: nat, numThreads: nat, t: nat)
    requires t < numThreads
    ensures StartOf(arrayLen, numThreads, t) <= EndOf(arrayLen, numThreads, t) <= arrayLen
  {
    var share := arrayLen / numThreads;
    MulNext(t, numThreads, share);
    assert numThreads * share <= arrayLen;
    if t < numThreads - 1 {
      MulNext(t, t + 1, share);
      MulNext(t + 1, numThreads, share);
    }
  }

  /** A later thread's range begins where an earlier one has ended, or after. */
  lemma RangesInOrder(arrayLen: nat, numThreads: nat, t: nat, u: nat)
    requires t < u < numThreads
    ensures EndOf(arrayLen, numThreads, t) <= StartOf(arrayLen, numThreads, u)
  {
    MulNext(t, u, arrayLen / numThreads);
  }

  ghost predicate CalledBy(arrayLen: nat, s: State, x: nat, t: nat)
    requires t < |s.next|
  {
    StartOf(arrayLen, |s.next|, t) <= x < s.next[t]
  }

  ghost predicate Inv(arrayLen: nat, s: State) {
    && Distinct(s.called)
    && (forall t :: 0 <= t < |s.next| ==>
          StartOf(arrayLen, |s.next|, t) <= s.next[t] <= EndOf(arrayLen, |s.next|, t))
    && (forall x :: x in s.called <==> exists t :: 0 <= t < |s.next| && CalledBy(arrayLen, s, x, t))
  }

  lemma NotCalledYet(arrayLen: nat, s: State, t: nat)
    requires Inv(arrayLen, s) && Enabled(arrayLen, s, t)
    ensures s.next[t] !in s.called
  {
    if s.next[t] in s.called {
      var u :| 0 <= u < |s.next| && CalledBy(arrayLen, s, s.next[t], u);
      if u < t {
        RangesInOrder(arrayLen, |s.next|, u, t);
      } else if t < u {
        RangesInOrder(arrayLen, |s.next|, t, u);
      }
      assert false;
    }
  }

  lemma StepKeepsInv(arrayLen: nat, s: State, t: nat)
    requires Inv(arrayLen, s) && Enabled(arrayLen, s, t)
    ensures Inv(arrayLen, Step(s, t))
  {
    NotCalledYet(arrayLen, s, t);
    var r := Step(s, t);
    forall x ensures x in r.called <==> exists u :: 0 <= u < |r.next| && CalledBy(arrayLen, r, x, u) {
      if x in s.called {
        var u :| 0 <= u < |s.next| && CalledBy(arrayLen, s, x, u);
        assert CalledBy(arrayLen, r, x, u);
      } else if x == s.next[t] {
        assert CalledBy(arrayLen, r, x, t);
      } else if u :| 0 <= u < |r.next| && CalledBy(arrayLen, r, x, u) {
        assert CalledBy(arrayLen, s, x, u);
      }
    }
  }

  lemma {:induction false} RunKeepsInv(arrayLen: nat, s: State, schedule: seq<nat>)
    requires Inv(arrayLen, s) && ValidRun(arrayLen, s, schedule)
    ensures Inv(arrayLen, Run(arrayLen, s, schedule)) && |Run(arrayLen, s, schedule).next| == |s.next|
    decreases |schedule|
  {
    if |schedule| > 0 {
      StepKeepsInv(arrayLen, s, schedule[0]);
      RunKeepsInv(arrayLen, Step(s, schedule[0]), schedule[1..]);
    }
  }

  /** The thread whose range holds an index, looking from thread t down. */
  lemma {:induction false} OwnerOf(arrayLen: nat, numThreads: nat, x: nat, t: nat) returns (owner: nat)
    requires t < numThreads && x < EndOf(arrayLen, numThreads, t)
    ensures owner < numThreads
    ensures StartOf(arrayLen, numThreads, owner) <= x < EndOf(arrayLen, numThreads, owner)
    decreases t
  {
    if StartOf(arrayLen, numThreads, t) <= x {
      owner := t;
    } else {
      assert t > 0 by { assert StartOf(arrayLen, numThreads, 0) == 0; }
      owner := OwnerOf(arrayLen, numThreads, x, t - 1);
    }
  }

  /**
   For any positive number of threads and every interleaving: the action has never been called twice with the
   same index, and when all threads have finished it has been called exactly once with each index below the
   length.
   */
  lemma EachIndexOnce(arrayLen: nat, numThreads: nat, schedule: seq<nat>)
    requires numThreads > 0 && ValidRun(arrayLen, Start(arrayLen, numThreads), schedule)
    ensures var s := Run(arrayLen, Start(arrayLen, numThreads), schedule);
            && Distinct(s.called)
            && (Finished(arrayLen, s) ==> IsPermutation(s.called, arrayLen))
  {
    var start := Start(arrayLen, numThreads);
    forall t | 0 <= t < numThreads ensures start.next[t] <= EndOf(arrayLen, numThreads, t) {
      ThreadBounds(arrayLen, numThreads, t);
    }
    RunKeepsInv(arrayLen, start, schedule);
    if Finished(arrayLen, Run(arrayLen, start, schedule)) {
      FinishedCallsAll(arrayLen, Run(arrayLen, start, schedule));
    }
  }

  /** Calls with indices of one thread's range come in their order. */
  ghost predicate OwnOrder(arrayLen: nat, s: State) {
    forall i, j, t | 0 <= i < j < |s.called| && 0 <= t < |s.next|
                     && CalledBy(arrayLen, s, s.called[i], t) && CalledBy(arrayLen, s, s.called[j], t) :: s.called[i] < s.called[j]
  }

  lemma StepKeepsOrder(arrayLen: nat, s: State, t: nat)
    requires Inv(arrayLen, s) && Enabled(arrayLen, s, t) && OwnOrder(arrayLen, s)
    ensures OwnOrder(arrayLen, Step(s, t))
  {
    NotCalledYet(arrayLen, s, t);
    var r := Step(s, t);
    forall i, j, u | 0 <= i < j < |r.called| && 0 <= u < |r.next|
                     && CalledBy(arrayLen, r, r.called[i], u) && CalledBy(arrayLen, r, r.called[j], u)
      ensures r.called[i] < r.called[j]
    {
      assert s.called[i] in s.called;
      var v :| 0 <= v < |s.next| && CalledBy(arrayLen, s, s.called[i], v);
      OneOwner(arrayLen, r, s.called[i], u, v);
      if j < |s.called| {
        assert s.called[j] in s.called;
        var w :| 0 <= w < |s.next| && CalledBy(arrayLen, s, s.called[j], w);
        OneOwner(arrayLen, r, s.called[j], u, w);
      } else {
        OneOwner(arrayLen, r, s.next[t], u, t);
      }
    }
  }

  lemma OneOwner(arrayLen: nat, s: State, x: nat, t: nat, u: nat)
    requires t < |s.next| && u < |s.next|
    requires forall v :: 0 <= v < |s.next| ==> s.next[v] <= EndOf(arrayLen, |s.next|, v)
    requires CalledBy(arrayLen, s, x, t) && CalledBy(arrayLen, s, x, u)
    ensures t == u
  {
    if t < u {
      RangesInOrder(arrayLen, |s.next|, t, u);
    } else if u < t {
      RangesInOrder(arrayLen, |s.next|, u, t);
    }
  }

  lemma {:induction false} RunKeepsOrder(arrayLen: nat, s: State, schedule: seq<nat>)
    requires Inv(arrayLen, s) && ValidRun(arrayLen, s, schedule) && OwnOrder(arrayLen, s)
    ensures OwnOrder(arrayLen, Run(arrayLen, s, schedule))
    ensures |Run(arrayLen, s, schedule).called| == |s.called| + |schedule|
    decreases |schedule|
  {
    hide Inv, OwnOrder;
    if |schedule| > 0 {
      StepKeepsInv(arrayLen, s, schedule[0]);
      StepKeepsOrder(arrayLen, s, schedule[0]);
      RunKeepsOrder(arrayLen, Step(s, schedule[0]), schedule[1..]);
    }
  }

  lemma StartInv(arrayLen: nat, numThreads: nat)
    ensures Inv(arrayLen, Start(arrayLen, numThreads)) && OwnOrder(arrayLen, Start(arrayLen, numThreads))
  {
    forall t | 0 <= t < numThreads ensures Start(arrayLen, numThreads).next[t] <= EndOf(arrayLen, numThreads, t) {
      ThreadBounds(arrayLen, numThreads, t);
    }
  }

  lemma CalledBelow(arrayLen: nat, s: State)
    requires Inv(arrayLen, s)
    ensures |s.called| <= arrayLen
  {
    forall x: nat | x in s.called ensures x < arrayLen {
      var t :| 0 <= t < |s.next| && CalledBy(arrayLen, s, x, t);
      ThreadBounds(arrayLen, |s.next|, t);
    }
    DistinctCount(s.called);
    SubsetCount(Elements(s.called), Below(arrayLen));
  }

  /**
   Each thread goes through its range in order; until Wait returns some thread can go on, and it returns exactly after
   as many calls as there are indices.
   */
  lemma SplitEnds(arrayLen: nat, numThreads: nat, schedule: seq<nat>)
    requires numThreads > 0 && ValidRun(arrayLen, Start(arrayLen, numThreads), schedule)
    ensures var s := Run(arrayLen, Start(arrayLen, numThreads), schedule);
            && |schedule| <= arrayLen
            && (Finished(arrayLen, s) <==> |schedule| == arrayLen)
            && (!Finished(arrayLen, s) ==> exists t :: Enabled(arrayLen, s, t))
            && OwnOrder(arrayLen, s)
  {
    var start := Start(arrayLen, numThreads);
    StartInv(arrayLen, numThreads);
    RunKeepsInv(arrayLen, start, schedule);
    RunKeepsOrder(arrayLen, start, schedule);
    var s := Run(arrayLen, start, schedule);
    hide OwnOrder, Inv, Run, ValidRun, Finished;
    FinishedByCount(arrayLen, s);
  }

  lemma FinishedByCount(arrayLen: nat, s: State)
    requires |s.next| > 0 && Inv(arrayLen, s)
    ensures |s.called| <= arrayLen && (Finished(arrayLen, s) <==> |s.called| == arrayLen)
    ensures !Finished(arrayLen, s) ==> exists t :: Enabled(arrayLen, s, t)
  {
    CalledBelow(arrayLen, s);
    if Finished(arrayLen, s) {
      FinishedCallsAll(arrayLen, s);
    } else {
      hide Inv, StartOf, EndOf;
      var t: nat :| t < |s.next| && s.next[t] < EndOf(arrayLen, |s.next|, t);
      assert Enabled(arrayLen, s, t);
      StepKeepsInv(arrayLen, s, t);
      CalledBelow(arrayLen, Step(s, t));
    }
  }

  lemma FinishedCallsAll(arrayLen: nat, s: State)
    requires |s.next| > 0 && Inv(arrayLen, s) && Finished(arrayLen, s)
    ensures IsPermutation(s.called, arrayLen)
  {
    hide Inv, Finished;
    forall x: nat ensures x in s.called <==> x < arrayLen {
      CalledExactly(arrayLen, s, x);
    }
    CalledExactly(arrayLen, s, 0);
    DistinctCount(s.called);
    assert Elements(s.called) == Below(arrayLen);
    forall i | 0 <= i < |s.called| ensures s.called[i] < arrayLen {
      assert s.called[i] in s.called;
    }
  }

  lemma CalledExactly(arrayLen: nat, s: State, x: nat)
    requires |s.next| > 0 && Inv(arrayLen, s) && Finished(arrayLen, s)
    ensures Distinct(s.called) && (x in s.called <==> x < arrayLen)
  {
    hide StartOf, EndOf;
    if x < arrayLen {
      LastEnd(arrayLen, |s.next|);
      var t := OwnerOf(arrayLen, |s.next|, x, |s.next| - 1);
      assert CalledBy(arrayLen, s, x, t);
    } else if x in s.called {
      var t :| 0 <= t < |s.next| && CalledBy(arrayLen, s, x, t);
      ThreadBounds(arrayLen, |s.next|, t);
      assert false;
    }
  }

  lemma LastEnd(arrayLen: nat, numThreads: nat)
    requires numThreads > 0
    ensures EndOf(arrayLen, numThreads, numThreads - 1) == arrayLen
  {
  }

  // ---------------------------------------------------------------- loginAsUsers

  /** The token slots after these calls; a login that fails leaves its slot empty. */
  function SlotsAfter(n: nat, login: nat -> string, called: seq<nat>): seq<string> {
    seq(n, i requires 0 <= i < n => if i in called then login(i) else "")
  }

  /** tokens[i] = client.AuthToken. */
  method WriteSlot(tokens: array<string>, login: nat -> string, i: nat, ghost called: seq<nat>)
    requires i < tokens.Length && tokens[..] == SlotsAfter(tokens.Length, login, called)
    modifies tokens
    ensures tokens[..] == SlotsAfter(tokens.Length, login, called + [i])
  {
    if login(i) != "" {
      tokens[i] := login(i);
    }
  }

  /** Whatever the schedule, in the end slot i holds the outcome of login i. */
  lemma SlotsComplete(n: nat, numThreads: nat, login: nat -> string, schedule: seq<nat>)
    requires numThreads > 0 && ValidRun(n, Start(n, numThreads), schedule)
    requires Finished(n, Run(n, Start(n, numThreads), schedule))
    ensures SlotsAfter(n, login, Run(n, Start(n, numThreads), schedule).called)
            == seq(n, i requires 0 <= i < n => login(i))
  {
    EachIndexOnce(n, numThreads, schedule);
    var called := Run(n, Start(n, numThreads), schedule).called;
    forall i | 0 <= i < n ensures i in called {
      PermutationReaches(called, n, i);
    }
  }

  /** The slots that hold a token, in order, among the first n. */
  function Filled(tokens: seq<string>, n: nat): (r: seq<nat>)
    requires n <= |tokens|
    ensures |r| <= n
    ensures forall k :: 0 <= k < |r| ==> r[k] < n && |tokens[r[k]]| > 0
    ensures forall j, k :: 0 <= j < k < |r| ==> r[j] < r[k]
    ensures forall i: nat :: i < n && |tokens[i]| > 0 ==> i in r
  {
    if n == 0 then []
    else if |tokens[n - 1]| > 0 then Filled(tokens, n - 1) + [n - 1]
    else Filled(tokens, n - 1)
  }

  lemma NoSlots(tokens: seq<string>)
    ensures |Filled(tokens, 0)| == 0
  {
  }

  lemma OneMoreSlot(tokens: seq<string>, n: nat)
    requires n < |tokens|
    ensures Filled(tokens, n + 1) == Filled(tokens, n) + if tokens[n] != "" then [n] else []
  {
  }

  /** The loop that keeps the tokens of successful logins, in order. */
  method ActiveTokens(tokens: seq<string>) returns (activeTokens: seq<string>)
    ensures |activeTokens| == |Filled(tokens, |tokens|)|
    ensures forall k :: 0 <= k < |activeTokens| ==> activeTokens[k] == tokens[Filled(tokens, |tokens|)[k]]
  {
    hide Filled;
    NoSlots(tokens);
    activeTokens := [];
    for n := 0 to |tokens|
      invariant |activeTokens| == |Filled(tokens, n)|
      invariant forall k :: 0 <= k < |activeTokens| ==> activeTokens[k] == tokens[Filled(tokens, n)[k]]
    {
      OneMoreSlot(tokens, n);
      if tokens[n] != "" {
        activeTokens := activeTokens + [tokens[n]];
      }
    }
  }

  ghost predicate Increasing(r: seq<nat>) {
    forall j, k :: 0 <= j < k < |r| ==> r[j] < r[k]
  }

  lemma {:induction false} AtLeastPosition(r: seq<nat>, k: nat)
    requires Increasing(r) && k < |r|
    ensures r[k] >= k
  {
    if k > 0 {
      AtLeastPosition(r, k - 1);
    }
  }

  /** In an increasing list, position k holds k exactly if all numbers up to k are in it. */
  lemma {:induction false} OwnPositionExactly(r: seq<nat>, k: nat)
    requires Increasing(r) && k < |r|
    ensures r[k] == k <==> forall i: nat :: i <= k ==> i in r
  {
    AtLeastPosition(r, k);
    if k > 0 {
      OwnPositionExactly(r, k - 1);
      AtLeastPosition(r, k - 1);
    }
    if k in r {
      var j :| 0 <= j < |r| && r[j] == k;
      AtLeastPosition(r, j);
    }
  }

  /**
   RunTest hands the i-th active token to entity EntityStartNum + i. That is the token of the entity's own user
   exactly if neither an earlier login nor its own failed.
   */
  lemma TokenIsOwnExactly(tokens: seq<string>, k: nat)
    requires k < |Filled(tokens, |tokens|)|
    ensures Filled(tokens, |tokens|)[k] == k <==> forall i :: 0 <= i <= k ==> |tokens[i]| > 0
  {
    var filled := Filled(tokens, |tokens|);
    OwnPositionExactly(filled, k);
    forall i: nat | i <= k ensures i in filled <==> |tokens[i]| > 0 {
    }
  }
}
