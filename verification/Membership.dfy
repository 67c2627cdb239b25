/**
 The nested loops of GenerateBulkloadFile that put users into teams and channels. They run over teams, then
 over a random selection of users, and append to the user records in place; here each user's final record is
 proved to be a plain function of the random permutations, and the promised counts follow from that.
 */
module Membership {
  import opened Collections
  import opened RandUtil
  import opened Names

  datatype Team = Team(name: string, scheme: string)

  datatype Channel = Channel(team: string, name: string, scheme: string)

  datatype UserTeam = UserTeam(name: string, channels: seq<string>, channelChoice: seq<Choice>)

  datatype User = User(username: string, teams: seq<UserTeam>, teamChoice: seq<Choice>)

  /** The made-up part of a channel. */
  datatype Draft = Draft(words: string, scheme: string)

  function Made(teamNum: nat, channelNum: nat, draft: Draft): Channel {
    Channel(TeamName(teamNum), ChannelName(draft.words, channelNum), draft.scheme)
  }

  /** The positions in `index` hold the channels made for this team, in order. */
  predicate Indexes(channels: seq<Channel>, index: seq<nat>, teamNum: nat, drafts: seq<Draft>) {
    && |index| == |drafts|
    && forall c :: 0 <= c < |index| ==> index[c] < |channels| && channels[index[c]] == Made(teamNum, c, drafts[c])
  }

  /** One team's channels, appended to the list of all channels. */
  method GenerateTeamChannels(before: seq<Channel>, teamNum: nat, drafts: seq<Draft>)
    returns (channels: seq<Channel>, index: seq<nat>)
    ensures before <= channels && Indexes(channels, index, teamNum, drafts)
    ensures forall c :: 0 <= c < |drafts| ==>
              channels[index[c]] == Channel("loadtestteam" + Itoa(teamNum), drafts[c].words + "-loadtestchannel" + Itoa(c), drafts[c].scheme)
    ensures Numbers(|channels|) == Numbers(|before|) + index
  {
    channels, index := before, [];
    for channelNum := 0 to |drafts|
      invariant before <= channels && Indexes(channels, index, teamNum, drafts[..channelNum])
      invariant Numbers(|channels|) == Numbers(|before|) + index
    {
      assert drafts[..channelNum + 1] == drafts[..channelNum] + [drafts[channelNum]];
      channels := channels + [Made(teamNum, channelNum, drafts[channelNum])];
      index := index + [|channels| - 1];
      assert Numbers(|channels|) == Numbers(|channels| - 1) + [|channels| - 1];
    }
    assert drafts[..|drafts|] == drafts;
  }

  /**
   The channels of all teams in one list, with an index by team: every position in a team's index holds a
   channel of that team, and the indices split the list among the teams without gap or overlap.
   */
  method GenerateChannels(drafts: seq<seq<Draft>>) returns (channels: seq<Channel>, channelsByTeam: seq<seq<nat>>)
    ensures |channelsByTeam| == |drafts|
    ensures forall t :: 0 <= t < |drafts| ==>
              && Indexes(channels, channelsByTeam[t], t, drafts[t])
              && forall c :: 0 <= c < |drafts[t]| ==>
                   channels[channelsByTeam[t][c]] ==
                   Channel("loadtestteam" + Itoa(t), drafts[t][c].words + "-loadtestchannel" + Itoa(c), drafts[t][c].scheme)
    ensures Flatten(channelsByTeam) == Numbers(|channels|)
  {
    channels, channelsByTeam := [], [];
    for teamNum := 0 to |drafts|
      invariant |channelsByTeam| == teamNum
      invariant forall t :: 0 <= t < teamNum ==> Indexes(channels, channelsByTeam[t], t, drafts[t])
      invariant Flatten(channelsByTeam) == Numbers(|channels|)
    {
      var more, index := GenerateTeamChannels(channels, teamNum, drafts[teamNum]);
      FlattenAppend(channelsByTeam, index);
      channels, channelsByTeam := more, channelsByTeam + [index];
    }
  }

  datatype Volume = High | Mid | Low

  /** The three volume classes of a list: how many are high and mid, how many users each gets, and the weights. */
  datatype Levels = Levels(numHigh: nat, numMid: nat,
                           usersHigh: nat, usersMid: nat, usersLow: nat,
                           weightHigh: int, weightMid: int, weightLow: int)
  {
    function VolumeOf(sequenceNum: nat): Volume {
      if sequenceNum > numHigh + numMid then Low
      else if sequenceNum > numHigh then Mid
      else High
    }

    function Users(sequenceNum: nat): nat {
      match VolumeOf(sequenceNum)
      case High => usersHigh
      case Mid => usersMid
      case Low => usersLow
    }

    function Weight(sequenceNum: nat): int {
      match VolumeOf(sequenceNum)
      case High => weightHigh
      case Mid => weightMid
      case Low => weightLow
    }
  }

  /** The generated teams and channels, and everything the random source supplies, in the order it is used. */
  datatype Plan = Plan(
    numUsers: nat,
    teams: seq<Team>,
    channels: seq<Channel>,
    channelsByTeam: seq<seq<nat>>,       // positions in channels
    teamLevels: Levels,
    channelLevels: seq<Levels>,          // one per team, in team order
    teamPermutation: seq<nat>,
    userPermutations: seq<seq<nat>>,     // one per team, in sequence
    memberPermutations: seq<seq<seq<nat>>>)  // one per team in sequence and channel of that team

  /** The team handled s-th. */
  function TeamAt(p: Plan, s: nat): Team
    requires Valid(p) && s < |p.teams|
  {
    p.teams[p.teamPermutation[s]]
  }

  function ChannelsAt(p: Plan, s: nat): seq<nat>
    requires Valid(p) && s < |p.teams|
  {
    p.channelsByTeam[p.teamPermutation[s]]
  }

  function ChannelAt(p: Plan, s: nat, c: nat): Channel
    requires Valid(p) && s < |p.teams| && c < |ChannelsAt(p, s)|
  {
    p.channels[ChannelsAt(p, s)[c]]
  }

  /** The users put into the s-th team. */
  function Picked(p: Plan, s: nat): seq<nat>
    requires Valid(p) && s < |p.teams|
  {
    p.userPermutations[s][..p.teamLevels.Users(s)]
  }

  function ChannelLevelsAt(p: Plan, s: nat): Levels
    requires Valid(p) && s < |p.teams|
  {
    p.channelLevels[p.teamPermutation[s]]
  }

  /** The number of users put into the c-th channel of the s-th team. */
  function ChannelCount(p: Plan, s: nat, c: nat): nat
    requires Valid(p) && s < |p.teams|
  {
    var wanted := ChannelLevelsAt(p, s).Users(c);
    if wanted > |Picked(p, s)| then |Picked(p, s)| else wanted
  }

  /** The users put into the c-th channel of the s-th team. */
  function Listed(p: Plan, s: nat, c: nat): seq<nat>
    requires Valid(p) && s < |p.teams| && c < |ChannelsAt(p, s)|
  {
    var permutation := p.memberPermutations[s][c];
    seq(ChannelCount(p, s, c), k requires 0 <= k < ChannelCount(p, s, c) => Picked(p, s)[permutation[k]])
  }

  /**
   The shapes the generator guarantees, permutations as rand.Perm returns them, and the one thing the source
   asks of its configuration: no team is to get more users than there are.
   */
  predicate Drawn(p: Plan) {
    && |p.channelsByTeam| == |p.channelLevels| == |p.userPermutations| == |p.memberPermutations| == |p.teams|
    && IsPermutation(p.teamPermutation, |p.teams|)
    && (forall s :: 0 <= s < |p.teams| ==> IsPermutation(p.userPermutations[s], p.numUsers))
    && p.teamLevels.usersHigh <= p.numUsers && p.teamLevels.usersMid <= p.numUsers && p.teamLevels.usersLow <= p.numUsers
    && (forall s :: 0 <= s < |p.teams| ==> |p.memberPermutations[s]| == |p.channelsByTeam[p.teamPermutation[s]]|)
    && (forall s, c :: 0 <= s < |p.teams| && 0 <= c < |p.memberPermutations[s]| ==>
          IsPermutation(p.memberPermutations[s][c], p.teamLevels.Users(s)))
  }

  /** And each team's index points at channels of that team. */
  predicate Valid(p: Plan) {
    && Drawn(p)
    && (forall t, c :: 0 <= t < |p.teams| && 0 <= c < |p.channelsByTeam[t]| ==>
          p.channelsByTeam[t][c] < |p.channels| && p.channels[p.channelsByTeam[t][c]].team == p.teams[t].name)
  }

  // ---------------------------------------------------------------- one user's view

  function AddTeam(user: User, name: string, weight: int): User {
    user.(teams := user.teams + [UserTeam(name, [], [])],
          teamChoice := user.teamChoice + [Choice(|user.teams|, weight)])
  }

  /** Appends a channel to the user's last team, as the source does. */
  function AddChannel(user: User, name: string, weight: int): User
    requires user.teams != []
  {
    var last := user.teams[|user.teams| - 1];
    var grown := last.(channels := last.channels + [name],
                       channelChoice := last.channelChoice + [Choice(|last.channels|, weight)]);
    user.(teams := user.teams[|user.teams| - 1 := grown])
  }

  /** The record of user u after c channels of the s-th team, starting from the record before that team. */
  function WithinTeam(p: Plan, user: User, u: nat, s: nat, c: nat): (r: User)
    requires Valid(p) && s < |p.teams| && c <= |ChannelsAt(p, s)|
    ensures u in Picked(p, s) ==> |r.teams| == |user.teams| + 1
    ensures u !in Picked(p, s) ==> r == user
    decreases c
  {
    if u !in Picked(p, s) then user
    else if c == 0 then AddTeam(user, TeamAt(p, s).name, p.teamLevels.Weight(s))
    else
      var before := WithinTeam(p, user, u, s, c - 1);
      if u in Listed(p, s, c - 1) then
        AddChannel(before, ChannelAt(p, s, c - 1).name, ChannelLevelsAt(p, s).Weight(c - 1))
      else before
  }

  /** The record of user u after the first s teams. */
  function AfterTeams(p: Plan, user: User, u: nat, s: nat): User
    requires Valid(p) && s <= |p.teams|
  {
    if s == 0 then user
    else WithinTeam(p, AfterTeams(p, user, u, s - 1), u, s - 1, |ChannelsAt(p, s - 1)|)
  }

  lemma PickedFacts(p: Plan, s: nat)
    requires Valid(p) && s < |p.teams|
    ensures |Picked(p, s)| == p.teamLevels.Users(s)
    ensures Distinct(Picked(p, s)) && forall u :: u in Picked(p, s) ==> u < p.numUsers
  {
  }

  /** The users listed for a channel are different members of its team. */
  lemma ListedFacts(p: Plan, s: nat, c: nat)
    requires Valid(p) && s < |p.teams| && c < |ChannelsAt(p, s)|
    ensures |Listed(p, s, c)| == ChannelCount(p, s, c)
    ensures Distinct(Listed(p, s, c)) && forall u :: u in Listed(p, s, c) ==> u in Picked(p, s)
  {
    PickedFacts(p, s);
    var permutation := p.memberPermutations[s][c];
    assert IsPermutation(permutation, |Picked(p, s)|);
    forall i, j | 0 <= i < j < ChannelCount(p, s, c) ensures Listed(p, s, c)[i] != Listed(p, s, c)[j] {
      assert permutation[i] != permutation[j];
    }
  }

  // ---------------------------------------------------------------- the loops

  /** The first loop of a team: its users get the team, and are remembered in order. */
  method AddUsersToTeam(users: array<User>, p: Plan, s: nat) returns (usersInTeam: seq<nat>)
    requires Valid(p) && users.Length == p.numUsers && s < |p.teams|
    modifies users
    ensures usersInTeam == Picked(p, s)
    ensures forall u :: 0 <= u < users.Length ==> users[u] == WithinTeam(p, old(users[u]), u, s, 0)
  {
    PickedFacts(p, s);
    var userPermutation := p.userPermutations[s];
    var numUsersToAdd := p.teamLevels.Users(s);
    usersInTeam := [];
    for n := 0 to numUsersToAdd
      invariant usersInTeam == Picked(p, s)[..n]
      invariant forall u :: 0 <= u < users.Length ==>
        users[u] == if u in Picked(p, s)[..n] then AddTeam(old(users[u]), TeamAt(p, s).name, p.teamLevels.Weight(s))
                    else old(users[u])
    {
      var userNum := userPermutation[n];
      assert Picked(p, s)[n] == userNum && userNum !in Picked(p, s)[..n];
      assert Picked(p, s)[..n + 1] == Picked(p, s)[..n] + [userNum];
      var user := users[userNum];
      users[userNum] := user.(
        teams := user.teams + [UserTeam(TeamAt(p, s).name, [], [])],
        teamChoice := user.teamChoice + [Choice(|user.teams + [UserTeam(TeamAt(p, s).name, [], [])]| - 1, p.teamLevels.Weight(s))]);
      usersInTeam := usersInTeam + [userNum];
    }
    assert Picked(p, s)[..numUsersToAdd] == Picked(p, s);
  }

  /** The innermost loop: a random selection of the team's users gets the channel, at the end of their last team. */
  method AddUsersToChannel(users: array<User>, p: Plan, s: nat, c: nat, usersInTeam: seq<nat>)
    requires Valid(p) && users.Length == p.numUsers && s < |p.teams| && c < |ChannelsAt(p, s)|
    requires usersInTeam == Picked(p, s)
    requires forall u :: u in usersInTeam ==> u < users.Length && users[u].teams != []
    modifies users
    ensures forall u :: 0 <= u < users.Length ==>
      users[u] == if u in Listed(p, s, c) then
                    AddChannel(old(users[u]), ChannelAt(p, s, c).name, ChannelLevelsAt(p, s).Weight(c))
                  else old(users[u])
  {
    ListedFacts(p, s, c);
    PickedFacts(p, s);
    var numUsersToAddChannel := ChannelLevelsAt(p, s).Users(c);
    if numUsersToAddChannel > |usersInTeam| {
      numUsersToAddChannel := |usersInTeam|;
    }
    var permutation := p.memberPermutations[s][c];
    ghost var listed := Listed(p, s, c);
    for n := 0 to numUsersToAddChannel
      invariant forall u :: 0 <= u < users.Length ==>
        users[u] == if u in listed[..n] then
                      AddChannel(old(users[u]), ChannelAt(p, s, c).name, ChannelLevelsAt(p, s).Weight(c))
                    else old(users[u])
    {
      var userNum := usersInTeam[permutation[n]];
      assert listed[n] == userNum && userNum !in listed[..n];
      assert listed[..n + 1] == listed[..n] + [userNum];
      assert userNum in usersInTeam;
      var user := users[userNum];
      var last := |user.teams| - 1;
      var team := user.teams[last];
      var channels := team.channels + [ChannelAt(p, s, c).name];
      users[userNum] := user.(teams := user.teams[last := team.(
        channels := channels,
        channelChoice := team.channelChoice + [Choice(|channels| - 1, ChannelLevelsAt(p, s).Weight(c))])]);
    }
    assert listed[..numUsersToAddChannel] == listed;
  }

  /** All the loops together: every user ends with the record the permutations prescribe. */
  method AssignMemberships(users: array<User>, p: Plan)
    requires Valid(p) && users.Length == p.numUsers
    modifies users
    ensures forall u :: 0 <= u < users.Length ==> users[u] == AfterTeams(p, old(users[u]), u, |p.teams|)
  {
    for s := 0 to |p.teams|
      invariant forall u :: 0 <= u < users.Length ==> users[u] == AfterTeams(p, old(users[u]), u, s)
    {
      ghost var before := users[..];
      var usersInTeam := AddUsersToTeam(users, p, s);
      for c := 0 to |ChannelsAt(p, s)|
        invariant forall u :: 0 <= u < users.Length ==> users[u] == WithinTeam(p, before[u], u, s, c)
      {
        PickedFacts(p, s);
        ListedFacts(p, s, c);
        AddUsersToChannel(users, p, s, c, usersInTeam);
      }
    }
  }
}
