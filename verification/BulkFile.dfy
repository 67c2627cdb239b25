/** The generator as a whole: its users, its line stream and its encoder together. */
module BulkFile {
  import opened Collections
  import opened Membership
  import opened Names
  import opened MembershipFacts
  import opened Emission
  import EmissionFacts
  import Encoder

  // ---------------------------------------------------------------- generated users make a consistent file

  /** The users as GenerateBulkloadFile leaves them after the membership loops. */
  function Generated(p: Plan, names: seq<string>): seq<User>
    requires Valid(p) && |names| == p.numUsers
  {
    seq(p.numUsers, u requires 0 <= u < p.numUsers => Final(p, names[u], u))
  }

  lemma GeneratedEntry(p: Plan, name: string, u: nat, k: nat, w: World)
    requires Valid(p) && w.teams == p.teams && w.channels == p.channels && k < |Final(p, name, u).teams|
    ensures var team := Final(p, name, u).teams[k];
            && EmissionFacts.HasTeamNamed(w, team.name)
            && forall c :: c in team.channels ==> EmissionFacts.HasChannel(w, team.name, c)
  {
    RecordIsFilter(p, name, u, |p.teams|);
    var team := Final(p, name, u).teams[k];
    var s := TeamsTaken(p, u, |p.teams|)[k];
    assert TeamAt(p, s) in p.teams;
    forall c | c in team.channels ensures EmissionFacts.HasChannel(w, team.name, c) {
      var m :| 0 <= m < |team.channels| && team.channels[m] == c;
      var channel := ChannelAt(p, s, ChannelsTaken(p, u, s, |ChannelsAt(p, s)|)[m]);
      assert channel in p.channels && channel.team == TeamAt(p, s).name;
    }
  }

  /** Whatever was drawn, the lists the file is made of refer to each other only. */
  lemma GeneratedConsistent(p: Plan, names: seq<string>, w: World)
    requires Valid(p) && |names| == p.numUsers && w.teams == p.teams && w.channels == p.channels
    requires forall t :: t in w.teams ==> t.scheme == "" || t.scheme in w.teamSchemes
    requires forall c :: c in w.channels ==> EmissionFacts.HasTeamNamed(w, c.team) && (c.scheme == "" || c.scheme in w.channelSchemes)
    requires forall d, m :: d in w.direct && m in d ==> m in names
    ensures EmissionFacts.Consistent(w, Generated(p, names))
  {
    var users := Generated(p, names);
    forall u, k | 0 <= u < |users| && 0 <= k < |users[u].teams|
      ensures EmissionFacts.HasTeamNamed(w, users[u].teams[k].name)
      ensures forall c :: c in users[u].teams[k].channels ==> EmissionFacts.HasChannel(w, users[u].teams[k].name, c)
    {
      GeneratedEntry(p, names[u], u, k, w);
    }
    forall d, m | d in w.direct && m in d ensures exists i :: 0 <= i < |users| && users[i].username == m {
      var i :| 0 <= i < |names| && names[i] == m;
      RecordIsFilter(p, m, i, |p.teams|);
      assert users[i].username == m;
    }
  }

  /**
   The lines as sent for the generated users only refer backwards, provided schemes and direct channels were drawn
   from the lists they belong to.
   */
  lemma GeneratedFileRefersBackwards(p: Plan, names: seq<string>, w: World)
    requires Valid(p) && |names| == p.numUsers && w.teams == p.teams && w.channels == p.channels
    requires forall t :: t in w.teams ==> t.scheme == "" || t.scheme in w.teamSchemes
    requires forall c :: c in w.channels ==> EmissionFacts.HasTeamNamed(w, c.team) && (c.scheme == "" || c.scheme in w.channelSchemes)
    requires forall d, m :: d in w.direct && m in d ==> m in names
    ensures EmissionFacts.Closed({}, FileLines(w, Generated(p, names)))
  {
    GeneratedConsistent(p, names, w);
    EmissionFacts.ReferencesPointBackwards(w, Generated(p, names));
  }

  /** The lines as sent put each generated user, per team, into exactly the channels it was drawn for. */
  lemma GeneratedFileRoundTrip(p: Plan, names: seq<string>, w: World, u: nat, k: nat)
    requires Valid(p) && NamesDistinct(p) && |names| == p.numUsers && Distinct(names)
    requires u < p.numUsers && k < |Generated(p, names)[u].teams|
    ensures var users := Generated(p, names);
            EmissionFacts.Loaded(FileLines(w, users), names[u], users[u].teams[k].name) == users[u].teams[k].channels
  {
    var users := Generated(p, names);
    forall m | 0 <= m < |users| ensures users[m].username == names[m] {
      RecordIsFilter(p, names[m], m, |p.teams|);
    }
    forall m | 0 <= m < |users| && m != u ensures users[m].username != users[u].username {
      assert names[m] != names[u];
    }
    RecordIsFilter(p, names[u], u, |p.teams|);
    TeamsExact(p, names[u], u, TeamsTaken(p, u, |p.teams|)[k]);
    EmissionFacts.FileRoundTrip(w, users, u, k);
  }

  // ---------------------------------------------------------------- where the hypotheses come from

  /**
   A plan and a world as the generator makes them: numbered team names, the channels and their index as
   GenerateChannels returns them for these drafts, schemes drawn from their lists, and rand.Perm's permutations.
   */
  ghost predicate FromGenerator(p: Plan, drafts: seq<seq<Draft>>, w: World) {
    && Drawn(p) && |drafts| == |p.channelsByTeam| == |p.teams| && w.teams == p.teams && w.channels == p.channels
    && (forall t :: 0 <= t < |p.teams| ==>
          p.teams[t].name == TeamName(t) && (p.teams[t].scheme == "" || p.teams[t].scheme in w.teamSchemes))
    && (forall t :: 0 <= t < |p.teams| ==> Indexes(p.channels, p.channelsByTeam[t], t, drafts[t]))
    && Flatten(p.channelsByTeam) == Numbers(|p.channels|)
    && (forall t, c :: 0 <= t < |drafts| && 0 <= c < |drafts[t]| ==>
          drafts[t][c].scheme == "" || drafts[t][c].scheme in w.channelSchemes)
  }

  /** generateTeams: numbered names, and one scheme for all of them, or none. */
  method GenerateTeams(numTeams: nat, teamSchemes: seq<string>, pick: Option<nat>) returns (teams: seq<Team>)
    requires pick.Some? ==> pick.value < |teamSchemes|
    ensures |teams| == numTeams
    ensures forall t :: 0 <= t < numTeams ==>
              teams[t] == Team("loadtestteam" + Itoa(t), if pick.Some? then teamSchemes[pick.value] else "")
  {
    hide Itoa;
    var scheme := "";
    if pick.Some? {
      scheme := teamSchemes[pick.value];
    }
    teams := [];
    for teamNum := 0 to numTeams
      invariant |teams| == teamNum
      invariant forall t :: 0 <= t < teamNum ==> teams[t] == Team("loadtestteam" + Itoa(t), scheme)
    {
      teams := teams + [Team("loadtestteam" + Itoa(teamNum), scheme)];
    }
  }

  /** What the random source and the configuration give the generator, apart from the names and levels. */
  datatype Shuffles = Shuffles(teams: seq<nat>, users: seq<seq<nat>>, members: seq<seq<seq<nat>>>)

  /** rand.Perm's results, of the sizes the membership loops ask for. */
  ghost predicate FitsLoops(f: Shuffles, numUsers: nat, drafts: seq<seq<Draft>>, l: Levels) {
    && IsPermutation(f.teams, |drafts|) && |f.users| == |f.members| == |drafts|
    && forall s :: 0 <= s < |drafts| ==>
         && IsPermutation(f.users[s], numUsers) && |f.members[s]| == |drafts[f.teams[s]]|
         && forall c :: 0 <= c < |f.members[s]| ==>
              IsPermutation(f.members[s][c],
                            if s <= l.numHigh then l.usersHigh else if s <= l.numHigh + l.numMid then l.usersMid else l.usersLow)
  }

  /**
   The first half of GenerateBulkloadFile. Whatever it is configured to make and whatever is drawn, it makes what the
   other results call a plan of the generator; no team may be asked to have more users than there are.
   */
  method GeneratePlan(numUsers: nat, drafts: seq<seq<Draft>>, teamSchemes: seq<string>, channelSchemes: seq<string>,
                      pick: Option<nat>, teamLevels: Levels, channelLevels: seq<Levels>, shuffles: Shuffles,
                      emojis: seq<string>, direct: seq<seq<string>>)
    returns (p: Plan, w: World)
    requires pick.Some? ==> pick.value < |teamSchemes|
    requires forall t, c :: 0 <= t < |drafts| && 0 <= c < |drafts[t]| ==>
               drafts[t][c].scheme == "" || drafts[t][c].scheme in channelSchemes
    requires teamLevels.usersHigh <= numUsers && teamLevels.usersMid <= numUsers && teamLevels.usersLow <= numUsers
    requires |channelLevels| == |drafts| && FitsLoops(shuffles, numUsers, drafts, teamLevels)
    ensures FromGenerator(p, drafts, w)
    ensures p.numUsers == numUsers && p.teamLevels == teamLevels && p.channelLevels == channelLevels
    ensures p.teamPermutation == shuffles.teams && p.userPermutations == shuffles.users && p.memberPermutations == shuffles.members
    ensures w.teamSchemes == teamSchemes && w.channelSchemes == channelSchemes && w.emojis == emojis && w.direct == direct
  {
    var teams := GenerateTeams(|drafts|, teamSchemes, pick);
    var channels, channelsByTeam := GenerateChannels(drafts);
    p := Plan(numUsers, teams, channels, channelsByTeam, teamLevels, channelLevels,
              shuffles.teams, shuffles.users, shuffles.members);
    w := World(teamSchemes, channelSchemes, teams, channels, emojis, direct);
    hide Flatten, Itoa, Made;
    PlanDrawn(p, drafts, shuffles);
    forall t | 0 <= t < |teams| ensures teams[t].name == TeamName(t) && (teams[t].scheme == "" || teams[t].scheme in teamSchemes) {
    }
  }

  lemma PlanDrawn(p: Plan, drafts: seq<seq<Draft>>, f: Shuffles)
    requires |p.teams| == |p.channelsByTeam| == |p.channelLevels| == |drafts|
    requires forall t :: 0 <= t < |drafts| ==> |p.channelsByTeam[t]| == |drafts[t]|
    requires p.teamLevels.usersHigh <= p.numUsers && p.teamLevels.usersMid <= p.numUsers && p.teamLevels.usersLow <= p.numUsers
    requires FitsLoops(f, p.numUsers, drafts, p.teamLevels)
    requires p.teamPermutation == f.teams && p.userPermutations == f.users && p.memberPermutations == f.members
    ensures Drawn(p)
  {
    forall s | 0 <= s < |drafts| ensures |f.members[s]| == |p.channelsByTeam[p.teamPermutation[s]]| {
      assert f.teams[s] < |drafts|;
    }
    forall s, c | 0 <= s < |drafts| && 0 <= c < |f.members[s]|
      ensures IsPermutation(f.members[s][c], p.teamLevels.Users(s))
    {
    }
  }

  lemma GeneratorPlanValid(p: Plan, drafts: seq<seq<Draft>>, w: World)
    requires FromGenerator(p, drafts, w)
    ensures Valid(p)
  {
    hide Drawn, TeamName, ChannelName;
    forall t, c | 0 <= t < |p.teams| && 0 <= c < |p.channelsByTeam[t]|
      ensures p.channelsByTeam[t][c] < |p.channels| && p.channels[p.channelsByTeam[t][c]].team == p.teams[t].name
    {
      assert Indexes(p.channels, p.channelsByTeam[t], t, drafts[t]);
    }
  }

  lemma GeneratorNames(p: Plan, drafts: seq<seq<Draft>>, w: World)
    requires FromGenerator(p, drafts, w) && Valid(p)
    ensures NamesDistinct(p)
  {
    hide Drawn, TeamName, ChannelName, NamesDistinct;
    var words := seq(|drafts|, t requires 0 <= t < |drafts| =>
                       seq(|drafts[t]|, c requires 0 <= c < |drafts[t]| => drafts[t][c].words));
    forall t, c | 0 <= t < |p.teams| && 0 <= c < |p.channelsByTeam[t]|
      ensures p.channels[p.channelsByTeam[t][c]].name == ChannelName(words[t][c], c)
    {
      assert Indexes(p.channels, p.channelsByTeam[t], t, drafts[t]);
    }
    GeneratedNamesDistinct(p, words);
  }

  lemma {:induction false} FlattenOrigin<T>(ss: seq<seq<T>>, x: T) returns (t: nat)
    requires x in Flatten(ss)
    ensures t < |ss| && x in ss[t]
    decreases |ss|
  {
    if x in ss[0] {
      t := 0;
    } else {
      t := FlattenOrigin(ss[1..], x);
      t := t + 1;
    }
  }

  /** Every channel was made for a team there is, with a scheme there is. */
  lemma GeneratorChannel(p: Plan, drafts: seq<seq<Draft>>, w: World, c: Channel)
    requires FromGenerator(p, drafts, w) && c in w.channels
    ensures EmissionFacts.HasTeamNamed(w, c.team) && (c.scheme == "" || c.scheme in w.channelSchemes)
  {
    hide Drawn, TeamName, ChannelName, Flatten;
    var x: nat :| x < |p.channels| && p.channels[x] == c;
    assert Numbers(|p.channels|)[x] == x;
    var t := FlattenOrigin(p.channelsByTeam, x);
    assert Indexes(p.channels, p.channelsByTeam[t], t, drafts[t]);
    var m :| 0 <= m < |p.channelsByTeam[t]| && p.channelsByTeam[t][m] == x;
    assert c == Made(t, m, drafts[t][m]);
    assert p.teams[t] in w.teams;
  }

  /** What the other results ask of a plan and a world holds of every one the generator makes. */
  lemma GeneratorIsSound(p: Plan, drafts: seq<seq<Draft>>, w: World)
    requires FromGenerator(p, drafts, w)
    ensures Valid(p) && NamesDistinct(p) && w.teams == p.teams && w.channels == p.channels
    ensures forall t :: t in w.teams ==> t.scheme == "" || t.scheme in w.teamSchemes
    ensures forall c :: c in w.channels ==>
              EmissionFacts.HasTeamNamed(w, c.team) && (c.scheme == "" || c.scheme in w.channelSchemes)
  {
    GeneratorPlanValid(p, drafts, w);
    GeneratorNames(p, drafts, w);
    forall c | c in w.channels
      ensures EmissionFacts.HasTeamNamed(w, c.team) && (c.scheme == "" || c.scheme in w.channelSchemes)
    {
      GeneratorChannel(p, drafts, w, c);
    }
    hide Drawn, Valid, NamesDistinct, TeamName, EmissionFacts.HasTeamNamed;
  }

  // ---------------------------------------------------------------- what separates users from their memberships

  /**
   The stream promises a line of another type between the plain users and their memberships, so that
   parallel import cannot overtake. It keeps the promise exactly if there is at least one emoji.
   */
  lemma SeparatedIffEmoji(w: World, users: seq<User>)
    requires |users| > 0 && |Memberships(users, |users|)| > 0
    ensures var last := |HeaderLines(w)| + |users| - 1;
            && FileLines(w, users)[last] == PlainLine(users[|users| - 1])
            && (FileLines(w, users)[last + 1].UserLine? <==> w.emojis == [])
  {
    var last := |HeaderLines(w)| + |users| - 1;
    var lines := FileLines(w, users);
    assert lines[last] == PlainLines(users)[|users| - 1];
    if w.emojis == [] {
      assert lines[last + 1] == Memberships(users, |users|)[0];
      MembershipsAreUsers(users, |users|);
    } else {
      assert lines[last + 1] == EmojiLines(w)[0];
    }
  }

  lemma {:induction false} MembershipsAreUsers(users: seq<User>, n: nat)
    requires n <= |users|
    ensures forall k :: 0 <= k < |Memberships(users, n)| ==> Memberships(users, n)[k].UserLine?
  {
    if n > 0 {
      MembershipsAreUsers(users, n - 1);
      EmissionFacts.MemberLinesOwn(users[n - 1], |users[n - 1].teams|);
    }
  }

  // ---------------------------------------------------------------- the stream as the encoder sees it

  /** n lines that share no memory with the user records: the lines of the file from position `from` on. */
  function OwnSends(from: nat, n: nat): seq<Encoder.Op> {
    seq(n, i requires 0 <= i < n => Encoder.Send(Encoder.Own(from + i)))
  }

  /** The first pass over n users: each is stripped and then sent. */
  function PlainOps(n: nat): (r: seq<Encoder.Op>)
    ensures |r| == 2 * n
  {
    seq(2 * n, j requires 0 <= j < 2 * n => if j % 2 == 0 then Encoder.Strip(j / 2) else Encoder.Send(Encoder.Shared(j / 2)))
  }

  function MemberCountOf(user: User): nat { |MemberLines(user, |user.teams|)| }

  /** The second pass over the first n users, their lines at position `from` of the file. */
  function MemberOps(users: seq<User>, from: nat, n: nat): (r: seq<Encoder.Op>)
    requires n <= |users|
    ensures |r| == n + |Memberships(users, n)|
    ensures forall j :: 0 <= j < |r| ==> !r[j].Strip?
  {
    if n == 0 then []
    else MemberOps(users, from, n - 1) + [Encoder.Restore(n - 1)]
         + OwnSends(from + |Memberships(users, n - 1)|, MemberCountOf(users[n - 1]))
  }

  /** What the producer does after the header and the first pass, from position `from` of the file on. */
  function Rest(w: World, users: seq<User>, from: nat): seq<Encoder.Op> {
    var members := from + |w.emojis|;
    OwnSends(from, |w.emojis|) + MemberOps(users, members, |users|)
    + OwnSends(members + |Memberships(users, |users|)|, |w.direct|)
  }

  function Program(w: World, users: seq<User>): seq<Encoder.Op> {
    OwnSends(0, |HeaderLines(w)|) + (PlainOps(|users|) + Rest(w, users, |HeaderLines(w)| + |users|))
  }

  function PlainAt(w: World, u: nat): nat { |HeaderLines(w)| + 2 * u + 1 }

  function RestoreAt(w: World, users: seq<User>, u: nat): nat
    requires u < |users|
  {
    |HeaderLines(w)| + 2 * |users| + |w.emojis| + u + |Memberships(users, u)|
  }

  /** The second pass restores user u once, after the memberships of the users before it. */
  lemma {:induction false} RestoreOnce(users: seq<User>, from: nat, n: nat, u: nat)
    requires n <= |users| && u < |users|
    ensures u < n ==> u + |Memberships(users, u)| < |MemberOps(users, from, n)|
    ensures forall j :: 0 <= j < |MemberOps(users, from, n)| ==>
              (MemberOps(users, from, n)[j] == Encoder.Restore(u) <==> u < n && j == u + |Memberships(users, u)|)
    decreases n
  {
    if n > 0 {
      RestoreOnce(users, from, n - 1, u);
    }
  }

  // ---------------------------------------------------------------- the lines sent

  function OwnLines(from: nat, n: nat): seq<Encoder.Line> {
    seq(n, i requires 0 <= i < n => Encoder.Own(from + i))
  }

  function SharedLines(n: nat): seq<Encoder.Line> {
    seq(n, i requires 0 <= i < n => Encoder.Shared(i))
  }

  lemma {:induction false} SentInFront(a: seq<Encoder.Op>, b: seq<Encoder.Op>, p: nat)
    requires p <= |a|
    ensures Encoder.Sent(a + b, p) == Encoder.Sent(a, p)
  {
    if p > 0 {
      SentInFront(a, b, p - 1);
    }
  }

  lemma {:induction false} SentBehind(a: seq<Encoder.Op>, b: seq<Encoder.Op>, p: nat)
    requires p <= |b|
    ensures Encoder.Sent(a + b, |a| + p) == Encoder.Sent(a, |a|) + Encoder.Sent(b, p)
  {
    if p == 0 {
      SentInFront(a, b, |a|);
    } else {
      SentBehind(a, b, p - 1);
      assert (a + b)[|a| + p - 1] == b[p - 1];
    }
  }

  lemma {:induction false} OwnSent(from: nat, n: nat, p: nat)
    requires p <= n
    ensures Encoder.Sent(OwnSends(from, n), p) == OwnLines(from, p)
  {
    if p > 0 {
      OwnSent(from, n, p - 1);
    }
  }

  lemma {:induction false} PlainSent(n: nat, p: nat)
    requires p <= 2 * n
    ensures Encoder.Sent(PlainOps(n), p) == SharedLines(p / 2)
  {
    if p > 0 {
      PlainSent(n, p - 1);
      assert PlainOps(n)[p - 1].Send? <==> (p - 1) % 2 == 1;
    }
  }

  lemma RestoreSendsNothing(front: seq<Encoder.Op>, u: nat)
    ensures Encoder.Sent(front + [Encoder.Restore(u)], |front| + 1) == Encoder.Sent(front, |front|)
  {
    SentInFront(front, [Encoder.Restore(u)], |front|);
  }

  lemma OwnLinesJoin(from: nat, m: nat, n: nat)
    ensures OwnLines(from, m) + OwnLines(from + m, n) == OwnLines(from, m + n)
  {
  }

  lemma OneMoreUser(users: seq<User>, from: nat, n: nat)
    requires 0 < n <= |users|
    ensures |Memberships(users, n)| == |Memberships(users, n - 1)| + MemberCountOf(users[n - 1])
    ensures MemberOps(users, from, n) == MemberOps(users, from, n - 1) + [Encoder.Restore(n - 1)]
                                         + OwnSends(from + |Memberships(users, n - 1)|, MemberCountOf(users[n - 1]))
  {
    hide OwnSends, MemberLines;
  }

  lemma NothingSent(users: seq<User>, from: nat)
    ensures Encoder.Sent(MemberOps(users, from, 0), 0) == OwnLines(from, 0) && |Memberships(users, 0)| == 0
  {
  }

  lemma {:induction false} MemberSent(users: seq<User>, from: nat, n: nat)
    requires n <= |users|
    ensures Encoder.Sent(MemberOps(users, from, n), |MemberOps(users, from, n)|) == OwnLines(from, |Memberships(users, n)|)
  {
    hide Encoder.Sent, OwnSends, OwnLines, MemberLines, MemberOps, Memberships;
    if n == 0 {
      assert |MemberOps(users, from, 0)| == |Memberships(users, 0)|;
      NothingSent(users, from);
    } else {
      MemberSent(users, from, n - 1);
      OneMoreUser(users, from, n);
      var before, lines := |Memberships(users, n - 1)|, MemberCountOf(users[n - 1]);
      var front := MemberOps(users, from, n - 1);
      RestoreSendsNothing(front, n - 1);
      OwnLength(from + before, lines);
      SentBehind(front + [Encoder.Restore(n - 1)], OwnSends(from + before, lines), lines);
      OwnSent(from + before, lines, lines);
      OwnLinesJoin(from, before, lines);
    }
  }

  lemma {:induction false} MemberOpsPrefix(users: seq<User>, from: nat, m: nat, n: nat) returns (more: seq<Encoder.Op>)
    requires m <= n <= |users|
    ensures MemberOps(users, from, n) == MemberOps(users, from, m) + more
    decreases n
  {
    if m == n {
      more := [];
    } else {
      more := MemberOpsPrefix(users, from, m, n - 1);
      more := more + [Encoder.Restore(n - 1)] + OwnSends(from + |Memberships(users, n - 1)|, MemberCountOf(users[n - 1]));
    }
  }

  /** What the second half has sent when it comes to user u; for u == |users|, when it comes to the direct channels. */
  lemma SentInRest(w: World, users: seq<User>, from: nat, u: nat)
    requires u <= |users|
    ensures var q := |w.emojis| + u + |Memberships(users, u)|;
            q <= |Rest(w, users, from)|
            && Encoder.Sent(Rest(w, users, from), q) == OwnLines(from, |w.emojis| + |Memberships(users, u)|)
  {
    hide Memberships, OwnSends, OwnLines, Encoder.Sent;
    var at := from + |w.emojis|;
    var emoji, members, direct := OwnSends(from, |w.emojis|), MemberOps(users, at, u),
                                  OwnSends(at + |Memberships(users, |users|)|, |w.direct|);
    hide MemberOps;
    OwnLength(from, |w.emojis|);
    var more := MemberOpsPrefix(users, at, u, |users|);
    assert Rest(w, users, from) == emoji + (members + (more + direct)) by {
      ConcatAssociative(emoji, members + more, direct);
      ConcatAssociative(members, more, direct);
    }
    SentInFront(members, more + direct, |members|);
    MemberSent(users, at, u);
    SentBehind(emoji, members + (more + direct), |members|);
    OwnSent(from, |w.emojis|, |w.emojis|);
    OwnLinesJoin(from, |w.emojis|, |Memberships(users, u)|);
  }

  lemma OwnLength(from: nat, n: nat)
    ensures |OwnSends(from, n)| == |OwnLines(from, n)| == n
  {
  }

  lemma SentThree(a: seq<Encoder.Op>, b: seq<Encoder.Op>, c: seq<Encoder.Op>, q: nat)
    requires q <= |c|
    ensures Encoder.Sent(a + (b + c), |a| + |b| + q)
            == Encoder.Sent(a, |a|) + (Encoder.Sent(b, |b|) + Encoder.Sent(c, q))
  {
    hide Encoder.Sent;
    SentBehind(b, c, q);
    SentBehind(a, b + c, |b| + q);
  }

  /** Header and plain users in front of what the second half has sent. */
  lemma SentBehindPlain(w: World, users: seq<User>, q: nat)
    requires q <= |Rest(w, users, |HeaderLines(w)| + |users|)|
    ensures var h, n := |HeaderLines(w)|, |users|;
            && h + 2 * n + q <= |Program(w, users)|
            && Encoder.Sent(Program(w, users), h + 2 * n + q)
               == OwnLines(0, h) + (SharedLines(n) + Encoder.Sent(Rest(w, users, h + n), q))
  {
    hide HeaderLines, Rest, PlainOps, OwnSends, OwnLines, SharedLines, Encoder.Sent;
    var h, n := |HeaderLines(w)|, |users|;
    OwnLength(0, h);
    OwnSent(0, h, h);
    PlainSent(n, 2 * n);
    SentThree(OwnSends(0, h), PlainOps(n), Rest(w, users, h + n), q);
  }

  /** How many lines are sent up to the moment user u is restored. */
  lemma SentBeforeRestore(w: World, users: seq<User>, u: nat)
    requires u < |users|
    ensures RestoreAt(w, users, u) <= |Program(w, users)|
    ensures |Encoder.Sent(Program(w, users), RestoreAt(w, users, u))|
            == |HeaderLines(w)| + |users| + |w.emojis| + |Memberships(users, u)|
  {
    hide HeaderLines, Memberships, Rest, Program, Encoder.Sent;
    SentInRest(w, users, |HeaderLines(w)| + |users|, u);
    SentBehindPlain(w, users, |w.emojis| + u + |Memberships(users, u)|);
  }

  lemma SentTwo(a: seq<Encoder.Op>, b: seq<Encoder.Op>, c: seq<Encoder.Op>, q: nat)
    requires q <= |b|
    ensures Encoder.Sent(a + (b + c), |a| + q) == Encoder.Sent(a, |a|) + Encoder.Sent(b, q)
  {
    hide Encoder.Sent;
    SentInFront(b, c, q);
    SentBehind(a, b + c, q);
  }

  lemma SentInPlain(w: World, users: seq<User>, p: nat)
    requires p <= 2 * |users|
    ensures |HeaderLines(w)| + p <= |Program(w, users)|
    ensures |Encoder.Sent(Program(w, users), |HeaderLines(w)| + p)| == |HeaderLines(w)| + p / 2
  {
    hide HeaderLines, Rest, PlainOps, OwnSends, Encoder.Sent;
    OwnLength(0, |HeaderLines(w)|);
    PlainSent(|users|, p);
    OwnSent(0, |HeaderLines(w)|, |HeaderLines(w)|);
    SentTwo(OwnSends(0, |HeaderLines(w)|), PlainOps(|users|), Rest(w, users, |HeaderLines(w)| + |users|), p);
  }

  lemma PartsAt<T>(a: seq<T>, b: seq<T>, c: seq<T>, d: seq<T>, e: seq<T>, q: nat)
    requires q < |a| + |b| + |c| + |d| + |e|
    ensures |a + (b + (c + d + e))| == |a| + |b| + |c| + |d| + |e|
    ensures (a + (b + (c + d + e)))[q] ==
            if q < |a| then a[q]
            else if q < |a| + |b| then b[q - |a|]
            else if q < |a| + |b| + |c| then c[q - |a| - |b|]
            else if q < |a| + |b| + |c| + |d| then d[q - |a| - |b| - |c|]
            else e[q - |a| - |b| - |c| - |d|]
  {
  }

  predicate SendsOwn(op: Encoder.Op) { op.Send? && op.line.Own? }

  /** Operation q of the program, section by section. */
  lemma ProgramAt(w: World, users: seq<User>, q: nat)
    requires q < |Program(w, users)|
    ensures var h, n, e := |HeaderLines(w)|, |users|, |w.emojis|;
            var ops := MemberOps(users, h + n + e, n);
            var m := |ops|;
            && (q < h || h + 2 * n <= q < h + 2 * n + e || h + 2 * n + e + m <= q ==> SendsOwn(Program(w, users)[q]))
            && (h <= q < h + 2 * n ==> Program(w, users)[q] == PlainOps(n)[q - h])
            && (h + 2 * n + e <= q < h + 2 * n + e + m ==> Program(w, users)[q] == ops[q - h - 2 * n - e])
  {
    var h, n, e := |HeaderLines(w)|, |users|, |w.emojis|;
    ProgramSize(w, users);
    PartsAt(OwnSends(0, h), PlainOps(n), OwnSends(h + n, e), MemberOps(users, h + n + e, n),
            OwnSends(h + n + e + |Memberships(users, n)|, |w.direct|), q);
    hide HeaderLines, Memberships, MemberOps, PlainOps;
  }

  lemma ProgramSize(w: World, users: seq<User>)
    ensures |Program(w, users)| == |HeaderLines(w)| + 2 * |users| + |w.emojis| + |users| + |Memberships(users, |users|)| + |w.direct|
  {
    hide HeaderLines, Memberships, PlainOps;
  }

  lemma ProgramStripsAround(w: World, users: seq<User>, u: nat)
    requires u < |users|
    ensures Encoder.StrippedAround(Program(w, users), u, PlainAt(w, u), RestoreAt(w, users, u))
  {
    hide HeaderLines, Memberships, MemberOps, Program;
    var prog, a, b := Program(w, users), PlainAt(w, u), RestoreAt(w, users, u);
    RestoreOnce(users, |HeaderLines(w)| + |users| + |w.emojis|, |users|, u);
    ProgramSize(w, users);
    ProgramAt(w, users, a);
    ProgramAt(w, users, a - 1);
    ProgramAt(w, users, b);
    assert prog[a - 1] == Encoder.Strip(u);
    assert u in Encoder.Stripped(prog, a);
    forall q | a < q < |prog| && q != b ensures prog[q] != Encoder.Strip(u) && prog[q] != Encoder.Restore(u) {
      ProgramAt(w, users, q);
    }
  }

  /**
   Exactly when user u's plain line reaches the file without channel memberships in every interleaving of
   generator and encoder: when the later users, the emoji and the memberships of the earlier users make at
   least 101 lines. (101 emoji are enough for every user; with none, the last of few users is at risk.)
   */
  lemma PlainLineStrippedExactly(w: World, users: seq<User>, u: nat)
    requires u < |users|
    ensures !Encoder.CanEncode(Program(w, users), |HeaderLines(w)| + u, Encoder.UserLine(u, false))
            <==> (|users| - 1 - u) + |w.emojis| + |Memberships(users, u)| >= 101
  {
    hide HeaderLines, Memberships, Program, Encoder.Sent, Encoder.CanEncode, Encoder.StrippedAround;
    ProgramStripsAround(w, users, u);
    SentInPlain(w, users, 2 * u + 1);
    SentInPlain(w, users, 2 * u + 2);
    SentBeforeRestore(w, users, u);
    Encoder.StrippedIffFarEnough(Program(w, users), u, PlainAt(w, u), RestoreAt(w, users, u));
  }

  /** All lines sent: every line of the file at its own position, the plain users from the shared records. */
  lemma AllSent(w: World, users: seq<User>)
    ensures Encoder.Sent(Program(w, users), |Program(w, users)|)
            == OwnLines(0, |HeaderLines(w)|) + (SharedLines(|users|)
               + OwnLines(|HeaderLines(w)| + |users|, |w.emojis| + |Memberships(users, |users|)| + |w.direct|))
  {
    hide HeaderLines, Memberships, Encoder.Sent, OwnSends, OwnLines, SharedLines, MemberOps, PlainOps;
    var h, n, e, m, d := |HeaderLines(w)|, |users|, |w.emojis|, |Memberships(users, |users|)|, |w.direct|;
    var front := OwnSends(h + n, e) + MemberOps(users, h + n + e, n);
    OwnLength(h + n, e);
    OwnLength(h + n + e + m, d);
    SentInRest(w, users, h + n, n);
    SentInFront(front, OwnSends(h + n + e + m, d), |front|);
    SentBehind(front, OwnSends(h + n + e + m, d), d);
    OwnSent(h + n + e + m, d, d);
    OwnLinesJoin(h + n, e + m, d);
    SentBehindPlain(w, users, |front| + d);
    ProgramSize(w, users);
  }

  /** The k-th line sent stands for the k-th line of the file. */
  lemma SentAt(w: World, users: seq<User>, k: nat)
    requires k < |FileLines(w, users)|
    ensures |Encoder.Sent(Program(w, users), |Program(w, users)|)| == |FileLines(w, users)|
    ensures Encoder.Sent(Program(w, users), |Program(w, users)|)[k]
            == if |HeaderLines(w)| <= k < |HeaderLines(w)| + |users| then Encoder.Shared(k - |HeaderLines(w)|) else Encoder.Own(k)
  {
    hide HeaderLines, Memberships, Encoder.Sent, Program;
    AllSent(w, users);
  }
}
