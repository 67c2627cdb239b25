/** What the membership loops promise about the finished users: who is where, how many, and that choices point home. */
module MembershipFacts {
  import opened Collections
  import opened RandUtil
  import opened Names
  import opened Membership

  /** The teams user u was picked for, by position in the team sequence, in order. */
  function TeamsTaken(p: Plan, u: nat, s: nat): (r: seq<nat>)
    requires Valid(p) && s <= |p.teams|
    ensures forall k :: 0 <= k < |r| ==> r[k] < s && u in Picked(p, r[k])
    ensures forall j, k :: 0 <= j < k < |r| ==> r[j] < r[k]
    ensures forall q: nat :: q < s && u in Picked(p, q) ==> q in r
  {
    if s == 0 then []
    else if u in Picked(p, s - 1) then TeamsTaken(p, u, s - 1) + [s - 1]
    else TeamsTaken(p, u, s - 1)
  }

  /** The channels of the s-th team user u was listed for, in order. */
  function ChannelsTaken(p: Plan, u: nat, s: nat, c: nat): (r: seq<nat>)
    requires Valid(p) && s < |p.teams| && c <= |ChannelsAt(p, s)|
    ensures forall k :: 0 <= k < |r| ==> r[k] < c && u in Listed(p, s, r[k])
    ensures forall j, k :: 0 <= j < k < |r| ==> r[j] < r[k]
    ensures forall q: nat :: q < c && u in Listed(p, s, q) ==> q in r
  {
    if c == 0 then []
    else if u in Listed(p, s, c - 1) then ChannelsTaken(p, u, s, c - 1) + [c - 1]
    else ChannelsTaken(p, u, s, c - 1)
  }

  /** A team entry that names the s-th team and lists exactly these of its channels, each with a choice pointing at it. */
  predicate EntryFor(p: Plan, s: nat, taken: seq<nat>, team: UserTeam)
    requires Valid(p) && s < |p.teams| && forall m :: 0 <= m < |taken| ==> taken[m] < |ChannelsAt(p, s)|
  {
    && team.name == TeamAt(p, s).name
    && |team.channels| == |team.channelChoice| == |taken|
    && forall m :: 0 <= m < |taken| ==>
         && team.channels[m] == ChannelAt(p, s, taken[m]).name
         && team.channelChoice[m] == Choice(m, ChannelLevelsAt(p, s).Weight(taken[m]))
  }

  /** While a team is handled: the earlier entries are untouched and the last entry is the team so far. */
  lemma {:induction false} WithinTeamEntry(p: Plan, user: User, u: nat, s: nat, c: nat)
    requires Valid(p) && s < |p.teams| && c <= |ChannelsAt(p, s)| && u in Picked(p, s)
    ensures var r := WithinTeam(p, user, u, s, c);
            && r.teams[..|user.teams|] == user.teams
            && r.teamChoice == user.teamChoice + [Choice(|user.teams|, p.teamLevels.Weight(s))]
            && r.username == user.username
            && EntryFor(p, s, ChannelsTaken(p, u, s, c), r.teams[|user.teams|])
    decreases c
  {
    hide Valid, Picked, Listed;
    if c > 0 {
      WithinTeamEntry(p, user, u, s, c - 1);
      assert WithinTeam(p, user, u, s, c).teams[..|user.teams|] == user.teams;
    }
  }

  /** A team entry with all its channels, and the choice that points at it in position k. */
  predicate Complete(p: Plan, u: nat, s: nat, k: nat, team: UserTeam, choice: Choice)
    requires Valid(p) && s < |p.teams|
  {
    && EntryFor(p, s, ChannelsTaken(p, u, s, |ChannelsAt(p, s)|), team)
    && choice == Choice(k, p.teamLevels.Weight(s))
  }

  /** Entry k of the record is for the k-th team taken, complete with its channels, and choice k points at entry k. */
  ghost predicate RecordFor(p: Plan, u: nat, s: nat, user: User)
    requires Valid(p) && s <= |p.teams|
  {
    var taken := TeamsTaken(p, u, s);
    && |user.teams| == |user.teamChoice| == |taken|
    && forall k :: 0 <= k < |taken| ==> Complete(p, u, taken[k], k, user.teams[k], user.teamChoice[k])
  }

  function Fresh(username: string): User { User(username, [], []) }

  lemma NextTeam(p: Plan, user: User, u: nat, s: nat)
    requires Valid(p) && 0 < s <= |p.teams|
    ensures AfterTeams(p, user, u, s) == WithinTeam(p, AfterTeams(p, user, u, s - 1), u, s - 1, |ChannelsAt(p, s - 1)|)
    ensures u !in Picked(p, s - 1) ==> AfterTeams(p, user, u, s) == AfterTeams(p, user, u, s - 1)
  {
    hide Valid, ChannelsAt, Picked;
  }

  lemma NoTeamsTaken(p: Plan, name: string, u: nat)
    requires Valid(p)
    ensures RecordFor(p, u, 0, AfterTeams(p, Fresh(name), u, 0)) && AfterTeams(p, Fresh(name), u, 0).username == name
  {
    hide Valid;
  }

  lemma NotPicked(p: Plan, u: nat, s: nat, user: User)
    requires Valid(p) && 0 < s <= |p.teams| && u !in Picked(p, s - 1) && RecordFor(p, u, s - 1, user)
    ensures RecordFor(p, u, s, user)
  {
    hide Valid, Complete, Picked;
  }

  /**
   The loops visit users in random order, one team and channel at a time; the finished record of each user
   nevertheless is the filtered list of its teams, each with the filtered list of its channels.
   */
  lemma {:induction false} RecordIsFilter(p: Plan, name: string, u: nat, s: nat)
    requires Valid(p) && s <= |p.teams|
    ensures RecordFor(p, u, s, AfterTeams(p, Fresh(name), u, s))
    ensures AfterTeams(p, Fresh(name), u, s).username == name
  {
    hide Valid, AfterTeams, WithinTeam, RecordFor, Picked, ChannelsAt, EntryFor;
    if s == 0 {
      NoTeamsTaken(p, name, u);
    } else {
      RecordIsFilter(p, name, u, s - 1);
      NextTeam(p, Fresh(name), u, s);
      var before := AfterTeams(p, Fresh(name), u, s - 1);
      if u in Picked(p, s - 1) {
        WithinTeamEntry(p, before, u, s - 1, |ChannelsAt(p, s - 1)|);
        RecordLengths(p, u, s - 1, before);
        RecordStep(p, u, s, before, AfterTeams(p, Fresh(name), u, s));
      } else {
        NotPicked(p, u, s, before);
      }
    }
  }

  lemma RecordLengths(p: Plan, u: nat, s: nat, user: User)
    requires Valid(p) && s <= |p.teams| && RecordFor(p, u, s, user)
    ensures |user.teams| == |user.teamChoice| == |TeamsTaken(p, u, s)|
  {
    hide Valid, Complete, TeamsTaken;
  }

  lemma RecordStep(p: Plan, u: nat, s: nat, before: User, after: User)
    requires Valid(p) && 0 < s <= |p.teams| && u in Picked(p, s - 1) && RecordFor(p, u, s - 1, before)
    requires |after.teams| == |before.teams| + 1 && after.teams[..|before.teams|] == before.teams
    requires after.teamChoice == before.teamChoice + [Choice(|before.teams|, p.teamLevels.Weight(s - 1))]
    requires Complete(p, u, s - 1, |before.teams|, after.teams[|before.teams|], after.teamChoice[|before.teams|])
    ensures RecordFor(p, u, s, after)
  {
    hide Valid, Complete, Picked;
    var taken := TeamsTaken(p, u, s);
    assert taken == TeamsTaken(p, u, s - 1) + [s - 1];
    forall k | 0 <= k < |taken|
      ensures Complete(p, u, taken[k], k, after.teams[k], after.teamChoice[k])
    {
      if k < |before.teams| {
        assert after.teams[k] == after.teams[..|before.teams|][k] == before.teams[k];
        assert taken[k] == TeamsTaken(p, u, s - 1)[k];
      }
    }
  }

  // ---------------------------------------------------------------- who is in which team and channel

  predicate HasTeam(user: User, team: string) {
    exists k :: 0 <= k < |user.teams| && user.teams[k].name == team
  }

  predicate ListsChannel(user: User, team: string, channel: string) {
    exists k, m :: 0 <= k < |user.teams| && user.teams[k].name == team
                   && 0 <= m < |user.teams[k].channels| && user.teams[k].channels[m] == channel
  }

  /** Team names differ, and so do the channel names within a team: each ends in its number. */
  ghost predicate NamesDistinct(p: Plan)
    requires Valid(p)
  {
    && (forall i, j :: 0 <= i < j < |p.teams| ==> p.teams[i].name != p.teams[j].name)
    && (forall s: nat, i: nat, j: nat :: s < |p.teams| && i < j < |ChannelsAt(p, s)| ==>
          ChannelAt(p, s, i).name != ChannelAt(p, s, j).name)
  }

  /** Names made the generator's way are distinct in this sense. */
  lemma GeneratedNamesDistinct(p: Plan, words: seq<seq<string>>)
    requires Valid(p) && |words| == |p.teams|
    requires forall t :: 0 <= t < |p.teams| ==> p.teams[t].name == TeamName(t) && |words[t]| == |p.channelsByTeam[t]|
    requires forall t, c :: 0 <= t < |p.teams| && 0 <= c < |p.channelsByTeam[t]| ==>
               p.channels[p.channelsByTeam[t][c]].name == ChannelName(words[t][c], c)
    ensures NamesDistinct(p)
  {
    forall i, j | 0 <= i < j < |p.teams| ensures p.teams[i].name != p.teams[j].name {
      if p.teams[i].name == p.teams[j].name {
        TeamNamesDistinct(i, j);
      }
    }
    forall s: nat, i: nat, j: nat | s < |p.teams| && i < j < |ChannelsAt(p, s)|
      ensures ChannelAt(p, s, i).name != ChannelAt(p, s, j).name
    {
      var t := p.teamPermutation[s];
      if ChannelAt(p, s, i).name == ChannelAt(p, s, j).name {
        ChannelNamesDistinct(words[t][i], i, words[t][j], j);
      }
    }
  }

  function Final(p: Plan, name: string, u: nat): User
    requires Valid(p)
  {
    AfterTeams(p, Fresh(name), u, |p.teams|)
  }

  lemma SameTeam(p: Plan, s: nat, q: nat)
    requires Valid(p) && NamesDistinct(p) && s < |p.teams| && q < |p.teams|
    requires TeamAt(p, s).name == TeamAt(p, q).name
    ensures s == q
  {
    var i, j := p.teamPermutation[s], p.teamPermutation[q];
    assert i == j;
  }

  /** A user has a team exactly if it was picked for it, and has no team twice. */
  lemma TeamsExact(p: Plan, name: string, u: nat, s: nat)
    requires Valid(p) && NamesDistinct(p) && s < |p.teams|
    ensures HasTeam(Final(p, name, u), TeamAt(p, s).name) <==> u in Picked(p, s)
    ensures forall j, k :: 0 <= j < k < |Final(p, name, u).teams| ==>
              Final(p, name, u).teams[j].name != Final(p, name, u).teams[k].name
  {
    RecordIsFilter(p, name, u, |p.teams|);
    var user, taken := Final(p, name, u), TeamsTaken(p, u, |p.teams|);
    if k :| 0 <= k < |user.teams| && user.teams[k].name == TeamAt(p, s).name {
      SameTeam(p, s, taken[k]);
    }
    if u in Picked(p, s) {
      var k :| 0 <= k < |taken| && taken[k] == s;
      assert user.teams[k].name == TeamAt(p, s).name;
    }
    forall j, k | 0 <= j < k < |user.teams| ensures user.teams[j].name != user.teams[k].name {
      if user.teams[j].name == user.teams[k].name {
        SameTeam(p, taken[j], taken[k]);
      }
    }
  }

  lemma SameChannel(p: Plan, s: nat, c: nat, d: nat)
    requires Valid(p) && NamesDistinct(p) && s < |p.teams| && c < |ChannelsAt(p, s)| && d < |ChannelsAt(p, s)|
    requires ChannelAt(p, s, c).name == ChannelAt(p, s, d).name
    ensures c == d
  {
  }

  lemma OnlyDrawnListed(p: Plan, name: string, u: nat, s: nat, c: nat)
    requires Valid(p) && NamesDistinct(p) && s < |p.teams| && c < |ChannelsAt(p, s)|
    requires ListsChannel(Final(p, name, u), TeamAt(p, s).name, ChannelAt(p, s, c).name)
    ensures u in Listed(p, s, c)
  {
    hide NamesDistinct, Listed;
    RecordIsFilter(p, name, u, |p.teams|);
    var user, taken := Final(p, name, u), TeamsTaken(p, u, |p.teams|);
    var k, m :| 0 <= k < |user.teams| && user.teams[k].name == TeamAt(p, s).name
                && 0 <= m < |user.teams[k].channels| && user.teams[k].channels[m] == ChannelAt(p, s, c).name;
    SameTeam(p, s, taken[k]);
    var d := ChannelsTaken(p, u, s, |ChannelsAt(p, s)|)[m];
    SameChannel(p, s, c, d);
  }

  lemma DrawnListed(p: Plan, name: string, u: nat, s: nat, c: nat)
    requires Valid(p) && NamesDistinct(p) && s < |p.teams| && c < |ChannelsAt(p, s)| && u in Listed(p, s, c)
    ensures ListsChannel(Final(p, name, u), TeamAt(p, s).name, ChannelAt(p, s, c).name)
  {
    ListedFacts(p, s, c);
    hide NamesDistinct, Listed;
    RecordIsFilter(p, name, u, |p.teams|);
    var user, taken, channels := Final(p, name, u), TeamsTaken(p, u, |p.teams|), ChannelsTaken(p, u, s, |ChannelsAt(p, s)|);
    var k :| 0 <= k < |taken| && taken[k] == s;
    var m :| 0 <= m < |channels| && channels[m] == c;
    assert user.teams[k].channels[m] == ChannelAt(p, s, c).name;
  }

  /** A user lists a channel exactly if it was drawn for it. */
  lemma ChannelsExact(p: Plan, name: string, u: nat, s: nat, c: nat)
    requires Valid(p) && NamesDistinct(p) && s < |p.teams| && c < |ChannelsAt(p, s)|
    ensures ListsChannel(Final(p, name, u), TeamAt(p, s).name, ChannelAt(p, s, c).name) <==> u in Listed(p, s, c)
  {
    hide ListsChannel, Listed, NamesDistinct, Final;
    if ListsChannel(Final(p, name, u), TeamAt(p, s).name, ChannelAt(p, s, c).name) {
      OnlyDrawnListed(p, name, u, s, c);
    }
    if u in Listed(p, s, c) {
      DrawnListed(p, name, u, s, c);
    }
  }

  /** The users that end up with a team, given everyone's name. */
  ghost function MembersOf(p: Plan, names: seq<string>, team: string): set<nat>
    requires Valid(p) && |names| == p.numUsers
  {
    set u | u in Below(p.numUsers) && HasTeam(Final(p, names[u], u), team)
  }

  ghost function ListersOf(p: Plan, names: seq<string>, team: string, channel: string): set<nat>
    requires Valid(p) && |names| == p.numUsers
  {
    set u | u in Below(p.numUsers) && ListsChannel(Final(p, names[u], u), team, channel)
  }

  /** Every team has exactly the number of users configured for the volume class of its position. */
  lemma TeamSizesExact(p: Plan, names: seq<string>, s: nat)
    requires Valid(p) && NamesDistinct(p) && |names| == p.numUsers && s < |p.teams|
    ensures var l := p.teamLevels;
            |MembersOf(p, names, p.teams[p.teamPermutation[s]].name)| ==
            if s <= l.numHigh then l.usersHigh else if s <= l.numHigh + l.numMid then l.usersMid else l.usersLow
  {
    PickedFacts(p, s);
    DistinctCount(Picked(p, s));
    forall u ensures u in MembersOf(p, names, TeamAt(p, s).name) <==> u in Elements(Picked(p, s)) {
      if u in Below(p.numUsers) {
        TeamsExact(p, names[u], u, s);
      }
    }
    assert MembersOf(p, names, TeamAt(p, s).name) == Elements(Picked(p, s));
  }

  /**
   Every channel is listed by exactly its number of users, cut down to the size of its team, and all of them
   are members of the channel's own team.
   */
  lemma ChannelSizesExact(p: Plan, names: seq<string>, s: nat, c: nat)
    requires Valid(p) && NamesDistinct(p) && |names| == p.numUsers && s < |p.teams| && c < |ChannelsAt(p, s)|
    ensures ChannelAt(p, s, c).team == TeamAt(p, s).name
    ensures var t := p.teamPermutation[s];
            var members := MembersOf(p, names, p.teams[t].name);
            var listers := ListersOf(p, names, p.teams[t].name, p.channels[p.channelsByTeam[t][c]].name);
            var l := p.channelLevels[t];
            var wanted := if c <= l.numHigh then l.usersHigh else if c <= l.numHigh + l.numMid then l.usersMid else l.usersLow;
            && |listers| == (if wanted > |members| then |members| else wanted)
            && listers <= members
  {
    ListedFacts(p, s, c);
    PickedFacts(p, s);
    DistinctCount(Listed(p, s, c));
    TeamSizesExact(p, names, s);
    var listers := ListersOf(p, names, TeamAt(p, s).name, ChannelAt(p, s, c).name);
    forall u ensures u in listers <==> u in Elements(Listed(p, s, c)) {
      if u in Below(p.numUsers) {
        ChannelsExact(p, names[u], u, s, c);
      }
    }
    assert listers == Elements(Listed(p, s, c));
    forall u | u in listers ensures u in MembersOf(p, names, TeamAt(p, s).name) {
      ChannelsExact(p, names[u], u, s, c);
      TeamsExact(p, names[u], u, s);
    }
  }

  // ---------------------------------------------------------------- by the permutations and the configuration

  /** The team handled s-th gets the first users of its user permutation, as many as its volume class has. */
  lemma MemberByPosition(p: Plan, name: string, s: nat, k: nat)
    requires Valid(p) && NamesDistinct(p) && s < |p.teams| && k < p.numUsers
    ensures var l := p.teamLevels;
            var size := if s <= l.numHigh then l.usersHigh else if s <= l.numHigh + l.numMid then l.usersMid else l.usersLow;
            HasTeam(Final(p, name, p.userPermutations[s][k]), p.teams[p.teamPermutation[s]].name) <==> k < size
  {
    var permutation := p.userPermutations[s];
    TeamsExact(p, name, permutation[k], s);
    PickedFacts(p, s);
    if k < p.teamLevels.Users(s) {
      assert Picked(p, s)[k] == permutation[k];
    }
  }

  /**
   Its c-th channel gets the first of these by the channel's own permutation of them, as many as the channel's volume
   class has.
   */
  lemma ListerByPosition(p: Plan, name: string, s: nat, c: nat, k: nat)
    requires Valid(p) && NamesDistinct(p) && s < |p.teams| && c < |p.channelsByTeam[p.teamPermutation[s]]|
    requires k < |p.memberPermutations[s][c]|
    ensures p.memberPermutations[s][c][k] < p.numUsers
    ensures var t, u := p.teamPermutation[s], p.userPermutations[s][p.memberPermutations[s][c][k]];
            var l := p.channelLevels[t];
            var wanted := if c <= l.numHigh then l.usersHigh else if c <= l.numHigh + l.numMid then l.usersMid else l.usersLow;
            ListsChannel(Final(p, name, u), p.teams[t].name, p.channels[p.channelsByTeam[t][c]].name) <==> k < wanted
  {
    var permutation := p.memberPermutations[s][c];
    assert IsPermutation(permutation, p.teamLevels.Users(s));
    PickedFacts(p, s);
    var u := Picked(p, s)[permutation[k]];
    assert u == p.userPermutations[s][permutation[k]];
    ChannelsExact(p, name, u, s, c);
    ListedByPosition(p, s, c, k);
  }

  lemma ListedByPosition(p: Plan, s: nat, c: nat, k: nat)
    requires Valid(p) && s < |p.teams| && c < |ChannelsAt(p, s)| && k < |p.memberPermutations[s][c]|
    requires p.memberPermutations[s][c][k] < |Picked(p, s)|
    ensures Picked(p, s)[p.memberPermutations[s][c][k]] in Listed(p, s, c) <==> k < ChannelLevelsAt(p, s).Users(c)
  {
    var permutation := p.memberPermutations[s][c];
    PickedFacts(p, s);
    assert IsPermutation(permutation, |Picked(p, s)|);
    if k < ChannelCount(p, s, c) {
      assert Listed(p, s, c)[k] == Picked(p, s)[permutation[k]];
    } else {
      forall i | 0 <= i < |Listed(p, s, c)| ensures Listed(p, s, c)[i] != Picked(p, s)[permutation[k]] {
        assert permutation[i] != permutation[k];
      }
    }
  }

  /**
   The finished record entry by entry: for each entry there is the position of its team in the sequence, in increasing
   order, and the choice pointing at it has the weight configured for that position.
   */
  lemma TeamChoicesExact(p: Plan, name: string, u: nat) returns (at: seq<nat>)
    requires Valid(p)
    ensures var user := Final(p, name, u);
            && |at| == |user.teams| == |user.teamChoice|
            && (forall j, k :: 0 <= j < k < |at| ==> at[j] < at[k])
            && forall k :: 0 <= k < |at| ==>
                 var l := p.teamLevels;
                 && at[k] < |p.teams| && user.teams[k].name == p.teams[p.teamPermutation[at[k]]].name
                 && user.teamChoice[k].item == k
                 && user.teamChoice[k].weight ==
                    if at[k] <= l.numHigh then l.weightHigh else if at[k] <= l.numHigh + l.numMid then l.weightMid else l.weightLow
  {
    RecordIsFilter(p, name, u, |p.teams|);
    at := TeamsTaken(p, u, |p.teams|);
  }

  /** The same for the channels listed in an entry, which are channels of the entry's team in the order of its index. */
  lemma ChannelChoicesExact(p: Plan, name: string, u: nat, k: nat) returns (s: nat, at: seq<nat>)
    requires Valid(p) && k < |Final(p, name, u).teams|
    ensures s < |p.teams|
    ensures var entry, t := Final(p, name, u).teams[k], p.teamPermutation[s];
            && entry.name == p.teams[t].name
            && |at| == |entry.channels| == |entry.channelChoice|
            && (forall i, j :: 0 <= i < j < |at| ==> at[i] < at[j])
            && forall m :: 0 <= m < |at| ==>
                 var l := p.channelLevels[t];
                 && at[m] < |p.channelsByTeam[t]| && entry.channels[m] == p.channels[p.channelsByTeam[t][at[m]]].name
                 && entry.channelChoice[m].item == m
                 && entry.channelChoice[m].weight ==
                    if at[m] <= l.numHigh then l.weightHigh else if at[m] <= l.numHigh + l.numMid then l.weightMid else l.weightLow
  {
    RecordIsFilter(p, name, u, |p.teams|);
    s := TeamsTaken(p, u, |p.teams|)[k];
    at := ChannelsTaken(p, u, s, |ChannelsAt(p, s)|);
  }

  // ---------------------------------------------------------------- picking through the choices

  /** Every choice names its own position, so it always points into the list it was built with. */
  ghost predicate ChoicesPointHome(user: User) {
    && |user.teamChoice| == |user.teams|
    && (forall k :: 0 <= k < |user.teamChoice| ==> user.teamChoice[k].item == k)
    && (forall k :: 0 <= k < |user.teams| ==>
          && |user.teams[k].channelChoice| == |user.teams[k].channels|
          && forall m :: 0 <= m < |user.teams[k].channelChoice| ==> user.teams[k].channelChoice[m].item == m)
  }

  lemma FinalChoicesPointHome(p: Plan, name: string, u: nat)
    requires Valid(p)
    ensures ChoicesPointHome(Final(p, name, u))
  {
    RecordIsFilter(p, name, u, |p.teams|);
  }

  /** PickTeam: no team for an empty choice list, and otherwise an entry of the user's own list. */
  method PickTeam(user: User, draw: int) returns (r: Result<Option<UserTeam>>)
    requires ChoicesPointHome(user)
    requires |user.teamChoice| >= 2 && Sum(user.teamChoice) > 0 ==> IsDraw(draw, Sum(user.teamChoice))
    ensures r == Ok(None) <==> user.teams == []
    ensures r.Ok? && r.value.Some? ==>
      exists k :: 0 <= k < |user.teams| && r.value.value == user.teams[k]
                  && (|user.teams| >= 2 ==> FirstAbove(user.teamChoice, if Sum(user.teamChoice) > 0 then draw else 0, k))
    ensures r.Err? <==> Unpickable(user.teamChoice)
  {
    if |user.teamChoice| == 0 {
      return Ok(None);
    }
    var picked := WeightedChoice(user.teamChoice, draw);
    if picked.Err? {
      return Err(picked.message);
    }
    var teamIndex := user.teamChoice[picked.value].item;
    return Ok(Some(user.teams[teamIndex]));
  }

  /** PickChannel: the same, one level down. */
  method PickChannel(team: UserTeam, draw: int) returns (r: Result<Option<string>>)
    requires |team.channelChoice| == |team.channels|
    requires forall m :: 0 <= m < |team.channelChoice| ==> team.channelChoice[m].item == m
    requires |team.channelChoice| >= 2 && Sum(team.channelChoice) > 0 ==> IsDraw(draw, Sum(team.channelChoice))
    ensures r == Ok(None) <==> team.channels == []
    ensures r.Ok? && r.value.Some? ==>
      exists m :: 0 <= m < |team.channels| && r.value.value == team.channels[m]
                  && (|team.channels| >= 2 ==> FirstAbove(team.channelChoice, if Sum(team.channelChoice) > 0 then draw else 0, m))
    ensures r.Err? <==> Unpickable(team.channelChoice)
  {
    if |team.channelChoice| == 0 {
      return Ok(None);
    }
    var picked := WeightedChoice(team.channelChoice, draw);
    if picked.Err? {
      return Err(picked.message);
    }
    var channelIndex := team.channelChoice[picked.value].item;
    return Ok(Some(team.channels[channelIndex]));
  }
}
