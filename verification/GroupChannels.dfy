/**
 makeGroupChannels: random groups of three to eight users, drawn by swapping the picked name out of the way, and
 kept apart by remembering the sorted, comma-joined names of every group made.
 */
module GroupChannels {
  import opened Collections
  import opened RandUtil

  const MIN_USERS := 3
  const MAX_USERS := 8  // model.CHANNEL_GROUP_MAX_USERS
  const MAX_ATTEMPTS := 3

  // ---------------------------------------------------------------- sort.Strings

  /** The order of strings, character by character. */
  predicate Leq(a: string, b: string)
    decreases |a|
  {
    |a| == 0 || (|b| > 0 && (a[0] < b[0] || (a[0] == b[0] && Leq(a[1..], b[1..]))))
  }

  lemma {:induction false} LeqTotal(a: string, b: string)
    ensures Leq(a, b) || Leq(b, a)
    decreases |a|
  {
    if |a| > 0 && |b| > 0 && a[0] == b[0] {
      LeqTotal(a[1..], b[1..]);
    }
  }

  lemma {:induction false} LeqAntisymmetric(a: string, b: string)
    requires Leq(a, b) && Leq(b, a)
    ensures a == b
    decreases |a|
  {
    if |a| > 0 {
      LeqAntisymmetric(a[1..], b[1..]);
      assert a == [a[0]] + a[1..] && b == [b[0]] + b[1..];
    }
  }

  lemma {:induction false} LeqTransitive(a: string, b: string, c: string)
    requires Leq(a, b) && Leq(b, c)
    ensures Leq(a, c)
    decreases |a|
  {
    if |a| > 0 && a[0] == b[0] && b[0] == c[0] {
      LeqTransitive(a[1..], b[1..], c[1..]);
    }
  }

  ghost predicate IsSorted(s: seq<string>) {
    forall i, j :: 0 <= i < j < |s| ==> Leq(s[i], s[j])
  }

  function Insert(x: string, s: seq<string>): seq<string> {
    if |s| == 0 then [x]
    else if Leq(x, s[0]) then [x] + s
    else [s[0]] + Insert(x, s[1..])
  }

  function Sort(s: seq<string>): seq<string> {
    if |s| == 0 then [] else Insert(s[0], Sort(s[1..]))
  }

  lemma {:induction false} InsertMembers(x: string, s: seq<string>)
    ensures multiset(Insert(x, s)) == multiset{x} + multiset(s)
    decreases |s|
  {
    hide Leq;
    if |s| > 0 {
      assert s == [s[0]] + s[1..];
      InsertMembers(x, s[1..]);
    }
  }

  lemma PrependSorted(x: string, s: seq<string>)
    requires IsSorted(s) && forall j :: 0 <= j < |s| ==> Leq(x, s[j])
    ensures IsSorted([x] + s)
  {
    hide Leq;
  }

  lemma {:induction false} InsertSorted(x: string, s: seq<string>)
    requires IsSorted(s)
    ensures IsSorted(Insert(x, s))
    decreases |s|
  {
    hide Leq;
    if |s| > 0 {
      if Leq(x, s[0]) {
        forall j | 0 <= j < |s| ensures Leq(x, s[j]) {
          if j > 0 {
            LeqTransitive(x, s[0], s[j]);
          }
        }
        PrependSorted(x, s);
      } else {
        LeqTotal(x, s[0]);
        var rest := Insert(x, s[1..]);
        InsertSorted(x, s[1..]);
        InsertMembers(x, s[1..]);
        forall j | 0 <= j < |rest| ensures Leq(s[0], rest[j]) {
          assert rest[j] in multiset(rest);
        }
        PrependSorted(s[0], rest);
      }
    }
  }

  /** A sorted rearrangement, as sort.Strings promises. */
  lemma {:induction false} SortFacts(s: seq<string>)
    ensures IsSorted(Sort(s)) && multiset(Sort(s)) == multiset(s)
    decreases |s|
  {
    if |s| > 0 {
      SortFacts(s[1..]);
      InsertMembers(s[0], Sort(s[1..]));
      InsertSorted(s[0], Sort(s[1..]));
      assert s == [s[0]] + s[1..];
    }
  }

  /** A set of names has one sorted list: the key does not depend on the order of the draws. */
  lemma {:induction false} SortedUnique(a: seq<string>, b: seq<string>)
    requires IsSorted(a) && IsSorted(b) && Distinct(a) && Distinct(b) && Elements(a) == Elements(b)
    ensures a == b
    decreases |a|
  {
    DistinctCount(a);
    DistinctCount(b);
    if |a| > 0 {
      assert a[0] in Elements(b);
      var j :| 0 <= j < |b| && b[j] == a[0];
      assert b[0] in Elements(a);
      var i :| 0 <= i < |a| && a[i] == b[0];
      if i > 0 && j > 0 {
        LeqAntisymmetric(a[0], b[0]);
      }
      assert a[0] == b[0];
      FirstRemoved(a);
      FirstRemoved(b);
      SortedUnique(a[1..], b[1..]);
      assert a == [a[0]] + a[1..] && b == [b[0]] + b[1..];
    }
  }

  lemma FirstRemoved(a: seq<string>)
    requires Distinct(a) && |a| > 0
    ensures Elements(a[1..]) == Elements(a) - {a[0]}
  {
  }

  // ---------------------------------------------------------------- strings.Join

  function Join(names: seq<string>): string {
    if |names| == 0 then ""
    else if |names| == 1 then names[0]
    else names[0] + "," + Join(names[1..])
  }

  ghost predicate CommaFree(names: seq<string>) {
    forall i :: 0 <= i < |names| ==> ',' !in names[i]
  }

  lemma FirstComma(s: string, first: string, rest: string)
    requires s == first + "," + rest && ',' !in first
    ensures |first| < |s| && s[|first|] == ',' && forall k :: 0 <= k < |first| ==> s[k] != ','
    ensures s[..|first|] == first && s[|first| + 1..] == rest
  {
    forall k | 0 <= k < |first| ensures s[k] != ',' {
      assert s[k] == first[k] && first[k] in first;
    }
  }

  /** Only a key of several names has a comma. */
  lemma CommaExactly(a: seq<string>)
    requires CommaFree(a) && |a| > 0
    ensures ',' in Join(a) <==> |a| > 1
  {
    if |a| > 1 {
      FirstComma(Join(a), a[0], Join(a[1..]));
    }
  }

  /** Names without commas can be read back from the key, so that different groups have different keys. */
  lemma {:induction false} JoinInjective(a: seq<string>, b: seq<string>)
    requires CommaFree(a) && CommaFree(b) && |a| > 0 && |b| > 0 && Join(a) == Join(b)
    ensures a == b
    decreases |a|
  {
    CommaExactly(a);
    CommaExactly(b);
    if |a| > 1 {
      var s := Join(a);
      FirstComma(s, a[0], Join(a[1..]));
      FirstComma(s, b[0], Join(b[1..]));
      assert |a[0]| == |b[0]|;
      JoinInjective(a[1..], b[1..]);
      assert a == [a[0]] + a[1..] && b == [b[0]] + b[1..];
    }
  }

  // ---------------------------------------------------------------- picking

  /** A group as it is emitted. */
  ghost predicate IsGroup(g: seq<string>, usernames: seq<string>) {
    IsSorted(g) && Distinct(g) && forall x :: x in g ==> x in usernames
  }

  /** The last n names of the array, in the order they were picked. */
  function LastPicked(names: seq<string>, n: nat): seq<string>
    requires n <= |names|
  {
    seq(n, k requires 0 <= k < n => names[|names| - 1 - k])
  }

  lemma SwapKeepsBack(names: seq<string>, i: nat, index: nat, k: nat)
    requires i + index < |names| && k <= i
    ensures var last := |names| - 1 - i;
            Swap(names, index, last)[|names| - 1 - k] == if k < i then names[|names| - 1 - k] else names[index]
  {
  }

  lemma PickedAt(names: seq<string>, n: nat, k: nat)
    requires k < n <= |names|
    ensures LastPicked(names, n)[k] == names[|names| - 1 - k]
  {
  }

  /** Swapping a name behind the others picks it and leaves the names picked before alone. */
  lemma DrawStep(names: seq<string>, i: nat, index: nat)
    requires Distinct(names) && i + index < |names|
    ensures var after := Swap(names, index, |names| - 1 - i);
            && |after| == |names| && multiset(after) == multiset(names) && Distinct(after)
            && LastPicked(after, i + 1) == LastPicked(names, i) + [names[index]]
  {
    var last := |names| - 1 - i;
    var after := Swap(names, index, last);
    SwapPermutes(names, index, last);
    SwapKeepsDistinct(names, index, last);
    assert |after| == |names|;
    assert |LastPicked(after, i + 1)| == i + 1 && |LastPicked(names, i)| == i;
    hide Distinct, Swap, LastPicked;
    forall k | 0 <= k < i + 1
      ensures LastPicked(after, i + 1)[k] == (LastPicked(names, i) + [names[index]])[k]
    {
      SwapKeepsBack(names, i, index, k);
      PickedAt(after, i + 1, k);
      if k < i {
        PickedAt(names, i, k);
      }
    }
  }

  method SwapNames(names: array<string>, i: nat, j: nat)
    requires i < names.Length && j < names.Length
    modifies names
    ensures names[..] == Swap(old(names[..]), i, j)
  {
    names[i], names[j] := names[j], names[i];
  }

  /** r.Intn: any number below n. */
  method Intn(n: nat) returns (d: nat)
    requires n > 0
    ensures d < n
  {
    d := *;
    if n <= d {
      d := 0;
    }
  }

  /** The state the source's closure captures. */
  class Picker {
    const usernames: array<string>
    var seen: set<string>

    constructor (users: seq<string>)
      ensures usernames[..] == users && fresh(usernames) && seen == {}
    {
      usernames := new string[|users|](i requires 0 <= i < |users| => users[i]);
      seen := {};
    }

    /** One draw without replacement: the picked name is swapped behind the names still to choose from. */
    method Draw(count: nat) returns (r: Option<seq<string>>)
      requires Distinct(usernames[..])
      modifies usernames
      ensures multiset(usernames[..]) == multiset(old(usernames[..])) && Distinct(usernames[..])
      ensures r.Some? <==> count <= usernames.Length
      ensures r.Some? ==> r.value == LastPicked(usernames[..], count)
    {
      hide Distinct, Swap;
      var currentLength := usernames.Length;
      var picked: seq<string> := [];
      for i := 0 to count
        invariant i <= usernames.Length && currentLength == usernames.Length - i
        invariant picked == LastPicked(usernames[..], i)
        invariant multiset(usernames[..]) == multiset(old(usernames[..])) && Distinct(usernames[..])
      {
        if currentLength == 0 {
          return None;
        }
        var index := Intn(currentLength);
        DrawStep(usernames[..], i, index);
        picked := picked + [usernames[index]];
        SwapNames(usernames, index, currentLength - 1);
        currentLength := currentLength - 1;
      }
      return Some(picked);
    }

    /** pickRandomUsernames: up to three draws, until the group has not been made before. */
    method PickRandomUsernames(count: nat) returns (r: Option<seq<string>>, ghost rejected: seq<seq<string>>)
      requires Distinct(usernames[..])
      modifies this, usernames
      ensures multiset(usernames[..]) == multiset(old(usernames[..])) && Distinct(usernames[..])
      ensures r.Some? ==> |r.value| == count && IsGroup(r.value, old(usernames[..]))
      ensures r.Some? ==> Join(r.value) !in old(seen) && seen == old(seen) + {Join(r.value)}
      ensures r.None? ==> seen == old(seen)
      ensures r.None? <==> count > usernames.Length || |rejected| == 3
      ensures forall k :: 0 <= k < |rejected| ==> |rejected[k]| == count && IsGroup(rejected[k], old(usernames[..]))
      ensures forall k :: 0 <= k < |rejected| ==> Join(rejected[k]) in old(seen)
    {
      rejected := [];
      for attempts := 0 to MAX_ATTEMPTS
        invariant multiset(usernames[..]) == multiset(old(usernames[..])) && Distinct(usernames[..])
        invariant seen == old(seen) && |rejected| == attempts && (attempts > 0 ==> count <= usernames.Length)
        invariant forall k :: 0 <= k < |rejected| ==> |rejected[k]| == count && IsGroup(rejected[k], old(usernames[..]))
        invariant forall k :: 0 <= k < |rejected| ==> Join(rejected[k]) in seen
      {
        var drawn := Draw(count);
        if drawn.None? {
          return None, rejected;
        }
        var randomUsernames := Sort(drawn.value);
        DrawnIsGroup(usernames[..], count, old(usernames[..]));
        if Join(randomUsernames) !in seen {
          seen := seen + {Join(randomUsernames)};
          return Some(randomUsernames), rejected;
        }
        rejected := rejected + [randomUsernames];
      }
      return None, rejected;
    }
  }

  /** Sorting the picked names gives a group of the original names. */
  lemma DrawnIsGroup(names: seq<string>, count: nat, original: seq<string>)
    requires Distinct(names) && count <= |names| && multiset(names) == multiset(original)
    ensures var g := Sort(LastPicked(names, count)); |g| == count && IsGroup(g, original)
  {
    var picked := LastPicked(names, count);
    var g := Sort(picked);
    SortFacts(picked);
    assert |g| == |multiset(g)| == |multiset(picked)| == |picked|;
    assert Distinct(picked);
    MultisetDistinct(picked, g);
    forall x | x in g ensures x in original {
      assert x in multiset(g);
      assert x in picked;
      var k :| 0 <= k < |picked| && picked[k] == x;
      assert names[|names| - 1 - k] in multiset(names);
    }
  }

  /** The keys of the groups made. */
  ghost function Keys(groups: seq<seq<string>>): set<string> {
    set k | 0 <= k < |groups| :: Join(groups[k])
  }

  lemma OneMoreKey(groups: seq<seq<string>>, g: seq<string>)
    ensures Keys(groups + [g]) == Keys(groups) + {Join(g)}
  {
    hide Join;
    var all := groups + [g];
    forall key ensures key in Keys(all) <==> key in Keys(groups) + {Join(g)} {
      if key in Keys(groups) {
        var k :| 0 <= k < |groups| && key == Join(groups[k]);
        assert all[k] == groups[k];
      }
      assert all[|groups|] == g;
    }
  }

  ghost predicate AlreadyMade(groups: seq<seq<string>>, g: seq<string>) {
    exists i :: 0 <= i < |groups| && Elements(groups[i]) == Elements(g)
  }

  /** A group that was made has its key among the keys, whatever the names. */
  lemma MadeHasKey(groups: seq<seq<string>>, g: seq<string>, users: seq<string>)
    requires IsGroup(g, users) && forall i :: 0 <= i < |groups| ==> IsGroup(groups[i], users)
    ensures AlreadyMade(groups, g) ==> Join(g) in Keys(groups)
  {
    hide Join;
    if i :| 0 <= i < |groups| && Elements(groups[i]) == Elements(g) {
      SortedUnique(groups[i], g);
    }
  }

  /** A pick is retried only for a group that has really been made: with names free of commas, equal keys mean equal members. */
  lemma RejectedIsDuplicate(groups: seq<seq<string>>, g: seq<string>, users: seq<string>)
    requires CommaFree(users) && IsGroup(g, users) && |g| > 0
    requires forall i :: 0 <= i < |groups| ==> IsGroup(groups[i], users) && |groups[i]| > 0
    ensures Join(g) in Keys(groups) <==> AlreadyMade(groups, g)
  {
    hide Join, IsSorted, CommaFree;
    MadeHasKey(groups, g, users);
    if Join(g) in Keys(groups) {
      var i :| 0 <= i < |groups| && Join(g) == Join(groups[i]);
      GroupCommaFree(groups[i], users);
      GroupCommaFree(g, users);
      JoinInjective(groups[i], g);
    }
  }

  /** Where the loop gave up: the size wanted, and the groups drawn and rejected for it. */
  datatype Stop = Stop(count: nat, rejected: seq<seq<string>>)

  /** There are too few users for the size, or three groups in a row had all been made before. */
  ghost predicate IsStop(stop: Stop, groups: seq<seq<string>>, users: seq<string>) {
    && 3 <= stop.count <= 8
    && (|| stop.count > |users|
        || (|stop.rejected| == 3 && forall k :: 0 <= k < 3 ==>
              var g := stop.rejected[k];
              && |g| == stop.count && IsGroup(g, users) && Join(g) in Keys(groups)
              && (CommaFree(users) ==> AlreadyMade(groups, g))))
  }

  /**
   All groups: each sorted, without duplicates, of three to eight of the users, and no two with the same members.
   As many as requested, unless a pick fails, for one of the two reasons of IsStop.
   */
  method MakeGroupChannels(users: seq<string>, requested: nat) returns (groups: seq<seq<string>>, ghost stop: Option<Stop>)
    requires Distinct(users)
    ensures |groups| <= requested
    ensures forall i :: 0 <= i < |groups| ==> 3 <= |groups[i]| <= 8 && IsGroup(groups[i], users)
    ensures forall i, j :: 0 <= i < j < |groups| ==> Elements(groups[i]) != Elements(groups[j])
    ensures |groups| < requested <==> stop.Some?
    ensures stop.Some? ==> IsStop(stop.value, groups, users)
    ensures requested > 0 && |users| >= 8 ==> |groups| > 0
    ensures |users| < 3 ==> |groups| == 0
  {
    hide Join, CommaFree, IsGroup, IsStop, Keys, AlreadyMade;
    groups := [];
    NoKeys();
    var picker := new Picker(users);
    for i := 0 to requested
      invariant fresh(picker) && fresh(picker.usernames)
      invariant multiset(picker.usernames[..]) == multiset(users) && Distinct(picker.usernames[..])
      invariant |groups| == i
      invariant forall k :: 0 <= k < |groups| ==> MIN_USERS <= |groups[k]| <= MAX_USERS && IsGroup(groups[k], users)
      invariant picker.seen == Keys(groups)
      invariant |users| < MIN_USERS ==> |groups| == 0
      invariant forall j, k :: 0 <= j < k < |groups| ==> Elements(groups[j]) != Elements(groups[k])
    {
      var count := MIN_USERS;
      var more: bool := *;
      while count < MAX_USERS && more
        invariant MIN_USERS <= count <= MAX_USERS
      {
        count := count + 1;
        more := *;
      }
      ghost var names := picker.usernames[..];
      assert |names| == |multiset(names)| == |multiset(users)| == |users|;
      var members, rejected := picker.PickRandomUsernames(count);
      if members.None? {
        StopReason(Stop(count, rejected), groups, names, users);
        return groups, Some(Stop(count, rejected));
      }
      SameNames(members.value, names, users);
      forall k | 0 <= k < |groups| ensures Elements(groups[k]) != Elements(members.value) {
        if Elements(groups[k]) == Elements(members.value) {
          MadeAt(groups, members.value, k);
          MadeHasKey(groups, members.value, users);
        }
      }
      OneMoreKey(groups, members.value);
      groups := groups + [members.value];
    }
    stop := None;
  }

  lemma NoKeys()
    ensures Keys([]) == {}
  {
  }

  lemma MadeAt(groups: seq<seq<string>>, g: seq<string>, k: nat)
    requires k < |groups| && Elements(groups[k]) == Elements(g)
    ensures AlreadyMade(groups, g)
  {
  }

  /** What a failed pick means for the groups made so far. */
  lemma StopReason(stop: Stop, groups: seq<seq<string>>, names: seq<string>, users: seq<string>)
    requires MIN_USERS <= stop.count <= MAX_USERS && multiset(names) == multiset(users) && |names| == |users|
    requires forall i :: 0 <= i < |groups| ==> |groups[i]| > 0 && IsGroup(groups[i], users)
    requires stop.count > |users| || |stop.rejected| == MAX_ATTEMPTS
    requires forall k :: 0 <= k < |stop.rejected| ==> |stop.rejected[k]| == stop.count && IsGroup(stop.rejected[k], names)
    requires forall k :: 0 <= k < |stop.rejected| ==> Join(stop.rejected[k]) in Keys(groups)
    ensures IsStop(stop, groups, users)
    ensures |users| >= MAX_USERS ==> |groups| > 0
  {
    hide Join, CommaFree, IsGroup, Keys, AlreadyMade;
    if stop.count <= |users| {
      forall k | 0 <= k < MAX_ATTEMPTS
        ensures IsGroup(stop.rejected[k], users)
                && (CommaFree(users) ==> AlreadyMade(groups, stop.rejected[k]))
      {
        SameNames(stop.rejected[k], names, users);
        if CommaFree(users) {
          RejectedIsDuplicate(groups, stop.rejected[k], users);
        }
      }
      KeyMeansGroup(groups, Join(stop.rejected[0]));
    }
  }

  lemma KeyMeansGroup(groups: seq<seq<string>>, key: string)
    requires key in Keys(groups)
    ensures |groups| > 0
  {
  }

  lemma SameNames(g: seq<string>, names: seq<string>, users: seq<string>)
    requires multiset(names) == multiset(users) && IsGroup(g, names)
    ensures IsGroup(g, users)
  {
    hide IsSorted;
    forall x | x in g ensures x in users {
      assert x in multiset(names);
    }
  }

  lemma GroupCommaFree(g: seq<string>, users: seq<string>)
    requires CommaFree(users) && IsGroup(g, users)
    ensures CommaFree(g)
  {
    forall i | 0 <= i < |g| ensures ',' !in g[i] {
      assert g[i] in users;
    }
  }
}
