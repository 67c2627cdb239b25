/**
 What an importer makes of the file as written: the channels each user gets, and the references it meets. Both are
 as the generator meant them in every interleaving exactly if no user at risk has a channel.
 */
module ImportedFile {
  import opened Collections
  import opened Membership
  import opened MembershipFacts
  import opened Names
  import opened Emission
  import opened EmissionFacts
  import opened BulkFile
  import opened WrittenFile
  import DirectChannels
  import GroupChannels

  /** No two users share a name. */
  ghost predicate UsernamesDistinct(users: seq<User>) {
    forall i, j :: 0 <= i < j < |users| ==> users[i].username != users[j].username
  }

  // ---------------------------------------------------------------- the channels an import loads

  lemma {:induction false} EntryLists(user: User, n: nat, k: nat)
    requires TeamsDistinct(user) && n <= |user.teams| && k < |user.teams|
    ensures var listed := EntryChannels(Entries(user.teams), n, user.teams[k].name);
            if k < n then listed == user.teams[k].channels else |listed| == 0
  {
    if n > 0 {
      EntryLists(user, n - 1, k);
      var entries := Entries(user.teams);
      assert entries[n - 1] == TeamEntry(user.teams[n - 1].name, user.teams[n - 1].channels);
      assert user.teams[n - 1].name == user.teams[k].name <==> k == n - 1;
      hide Entries, TeamsDistinct;
      NothingAdded(EntryChannels(entries, n - 1, user.teams[k].name), user.teams[n - 1].channels);
    }
  }

  /** A full line brings the user's list for each of its teams; a plain line brings nothing. */
  lemma FirstLineLoads(user: User, k: nat)
    requires TeamsDistinct(user) && k < |user.teams|
    ensures LineChannels(FullLine(user), user.username, user.teams[k].name) == user.teams[k].channels
    ensures |LineChannels(PlainLine(user), user.username, user.teams[k].name)| == 0
  {
    EntryLists(user, |user.teams|, k);
    var entries := Entries(Stripped(user).teams);
    NoChannelsInEntries(entries, |entries|, user.teams[k].name);
  }

  lemma NextLoad(lines: seq<ImportLine>, n: nat, username: string, team: string)
    requires 0 < n <= |lines|
    ensures LoadedBy(lines, n, username, team) == LoadedBy(lines, n - 1, username, team) + LineChannels(lines[n - 1], username, team)
    ensures |LoadedBy(lines, 0, username, team)| == 0
  {
    hide LineChannels;
  }

  /** What user j's first line brings to user i. */
  lemma FirstLineOf(w: World, users: seq<User>, output: seq<Encoder.Encoded>, j: nat, i: nat, k: nat)
    requires UsernamesDistinct(users) && j < |users| && i < |users| && k < |users[i].teams| && TeamsDistinct(users[i])
    ensures var loaded := LineChannels(WrittenUsers(w, users, output)[j], users[i].username, users[i].teams[k].name);
            if j == i && Early(w, output, i) then loaded == users[i].teams[k].channels else |loaded| == 0
  {
    hide Early, TeamsDistinct, Entries, EntryChannels, Stripped;
    if j == i {
      FirstLineLoads(users[i], k);
    } else {
      assert users[j].username != users[i].username;
    }
  }

  lemma NothingAdded<T>(a: seq<T>, b: seq<T>)
    ensures |a| == 0 ==> a + b == b
    ensures |b| == 0 ==> a + b == a
  {
  }

  lemma {:induction false} UsersLoad(w: World, users: seq<User>, output: seq<Encoder.Encoded>, n: nat, i: nat, k: nat)
    requires UsernamesDistinct(users) && n <= |users| && i < |users| && k < |users[i].teams| && TeamsDistinct(users[i])
    requires |WrittenUsers(w, users, output)| == |users|
    ensures var loaded := LoadedBy(WrittenUsers(w, users, output), n, users[i].username, users[i].teams[k].name);
            if i < n && Early(w, output, i) then loaded == users[i].teams[k].channels else |loaded| == 0
    decreases n
  {
    hide Early, UsernamesDistinct, TeamsDistinct, LineChannels, LoadedBy, WrittenUsers;
    var lines, username, team := WrittenUsers(w, users, output), users[i].username, users[i].teams[k].name;
    if n == 0 {
      NextLoad(lines, 1, username, team);
    } else {
      UsersLoad(w, users, output, n - 1, i, k);
      NextLoad(lines, n, username, team);
      FirstLineOf(w, users, output, n - 1, i, k);
      NothingAdded(LoadedBy(lines, n - 1, username, team), LineChannels(lines[n - 1], username, team));
    }
  }

  /** Only the second and the fourth of five stretches contribute. */
  lemma TwoOfFive(a: seq<ImportLine>, b: seq<ImportLine>, c: seq<ImportLine>, d: seq<ImportLine>, e: seq<ImportLine>,
                  username: string, team: string)
    requires |Loaded(a, username, team)| == |Loaded(c, username, team)| == |Loaded(e, username, team)| == 0
    ensures Loaded(a + b + c + d + e, username, team) == Loaded(b, username, team) + Loaded(d, username, team)
  {
    hide Loaded;
    AddLoaded(a, b, username, team);
    AddLoaded(a + b, c, username, team);
    Both(a + b + c, d, username, team);
    AddLoaded(a + b + c + d, e, username, team);
  }

  lemma Both(a: seq<ImportLine>, b: seq<ImportLine>, username: string, team: string)
    ensures Loaded(a + b, username, team) == Loaded(a, username, team) + Loaded(b, username, team)
  {
    LoadedConcat(a, b, |b|, username, team);
  }

  lemma SectionsLoad(w: World, users: seq<User>, output: seq<Encoder.Encoded>, i: nat, k: nat)
    requires UsernamesDistinct(users) && i < |users| && k < |users[i].teams| && TeamsDistinct(users[i])
    ensures Loaded(Sections(w, users, output), users[i].username, users[i].teams[k].name)
            == (if Early(w, output, i) then users[i].teams[k].channels else []) + users[i].teams[k].channels
  {
    var username, team := users[i].username, users[i].teams[k].name;
    var header, first, emoji := HeaderLines(w), WrittenUsers(w, users, output), EmojiLines(w);
    var members, direct := Memberships(users, |users|), DirectLines(w);
    NothingLoaded(header, |header|, username, team);
    NothingLoaded(emoji, |emoji|, username, team);
    NothingLoaded(direct, |direct|, username, team);
    hide HeaderLines, EmojiLines, Memberships, DirectLines, MemberLines, Early, TeamsDistinct;
    UsersLoad(w, users, output, |users|, i, k);
    LoadedMemberships(users, |users|, i, username, team);
    LoadedMember(users[i], |users[i].teams|, k);
    TwoOfFive(header, first, emoji, members, direct, username, team);
  }

  /**
   Importing the written file in order, in any interleaving: user i gets its channel list for each team, twice if its
   first line came out early and once otherwise. So it is always put into exactly its channels, and the list itself
   is restored if the line was not early.
   */
  lemma WrittenLoads(w: World, users: seq<User>, s: Encoder.State, i: nat, k: nat)
    requires Finished(w, users, s) && UsernamesDistinct(users)
    requires i < |users| && k < |users[i].teams| && TeamsDistinct(users[i])
    ensures AreLines(w, users, s.output)
    ensures var loaded := Loaded(Written(w, users, s.output), users[i].username, users[i].teams[k].name);
            && loaded == (if Early(w, s.output, i) then users[i].teams[k].channels else []) + users[i].teams[k].channels
            && Elements(loaded) == Elements(users[i].teams[k].channels)
  {
    hide Written, Sections, Loaded, Finished, AreLines, Early, TeamsDistinct, UsernamesDistinct;
    FileComesOut(w, users, s);
    SectionsLoad(w, users, s.output, i, k);
  }

  /** An import of these lines gives the user exactly its list, in each of its teams. */
  predicate RoundTrip(user: User, lines: seq<ImportLine>) {
    forall k :: 0 <= k < |user.teams| ==> Loaded(lines, user.username, user.teams[k].name) == user.teams[k].channels
  }

  lemma RoundTripUnlessEarly(w: World, users: seq<User>, s: Encoder.State, i: nat)
    requires Finished(w, users, s) && UsernamesDistinct(users) && i < |users| && TeamsDistinct(users[i])
    ensures AreLines(w, users, s.output)
    ensures RoundTrip(users[i], Written(w, users, s.output)) <==> !Early(w, s.output, i) || NoChannels(users[i])
  {
    hide Finished, AreLines, Written, Early, TeamsDistinct, UsernamesDistinct, Loaded;
    FileComesOut(w, users, s);
    forall k | 0 <= k < |users[i].teams|
      ensures Loaded(Written(w, users, s.output), users[i].username, users[i].teams[k].name)
              == (if Early(w, s.output, i) then users[i].teams[k].channels else []) + users[i].teams[k].channels
    {
      WrittenLoads(w, users, s, i, k);
    }
  }

  /**
   The round trip of a user's channel lists through the file holds in every interleaving if and only if the user is
   not at risk or has no channel.
   */
  lemma RoundTripExactly(w: World, users: seq<User>, i: nat)
    requires UsernamesDistinct(users) && i < |users| && TeamsDistinct(users[i])
    ensures Always(w, users, lines => RoundTrip(users[i], lines)) <==> !AtRisk(w, users, i) || NoChannels(users[i])
  {
    hide Finished, AreLines, Written, Early, AtRisk, TeamsDistinct, UsernamesDistinct, RoundTrip, NoChannels;
    if !AtRisk(w, users, i) || NoChannels(users[i]) {
      forall s: Encoder.State | Finished(w, users, s) && AreLines(w, users, s.output)
        ensures RoundTrip(users[i], Written(w, users, s.output))
      {
        FileComesOut(w, users, s);
        RoundTripUnlessEarly(w, users, s, i);
      }
    } else {
      var s := EarlyHappens(w, users, i);
      RoundTripUnlessEarly(w, users, s, i);
      assert Finished(w, users, s) && AreLines(w, users, s.output);
    }
  }

  // ---------------------------------------------------------------- the references an import meets

  lemma {:induction false} WhoIntroduces(lines: seq<ImportLine>, username: string)
    ensures UserRef(username) in Introduced(lines) ==>
              exists k :: 0 <= k < |lines| && lines[k].UserLine? && lines[k].username == username
    decreases |lines|
  {
    if lines != [] && UserRef(username) in Introduced(lines) {
      var front, last := lines[..|lines| - 1], lines[|lines| - 1];
      if UserRef(username) in Introduced(front) {
        WhoIntroduces(front, username);
        var k :| 0 <= k < |front| && front[k].UserLine? && front[k].username == username;
        assert lines[k] == front[k];
      } else {
        assert lines[|lines| - 1].UserLine?;
      }
    }
  }

  lemma SectionBefore(w: World, users: seq<User>, output: seq<Encoder.Encoded>, u: nat, k: nat)
    requires u < |users| && k < |HeaderLines(w)| + u
    ensures |HeaderLines(w)| + u < |Sections(w, users, output)|
    ensures var line := Sections(w, users, output)[k];
            line.UserLine? ==> exists j :: 0 <= j < u && line.username == users[j].username
  {
    NoUserInHeader(w);
    hide HeaderLines, Memberships, EmojiLines, DirectLines, Early, Entries, Stripped;
    if k >= |HeaderLines(w)| {
      var j := k - |HeaderLines(w)|;
      assert Sections(w, users, output)[k] == WrittenUsers(w, users, output)[j];
    } else {
      assert Sections(w, users, output)[k] == HeaderLines(w)[k];
    }
  }

  lemma NoUserInHeader(w: World)
    ensures forall k :: 0 <= k < |HeaderLines(w)| ==> !HeaderLines(w)[k].UserLine?
  {
  }

  lemma NotYetIntroduced(w: World, users: seq<User>, output: seq<Encoder.Encoded>, u: nat)
    requires UsernamesDistinct(users) && u < |users|
    ensures |HeaderLines(w)| + u < |Sections(w, users, output)|
    ensures UserRef(users[u].username) !in Introduced(Sections(w, users, output)[..|HeaderLines(w)| + u])
  {
    hide HeaderLines, Sections;
    UsersFit(w, users, output, u);
    var before := Sections(w, users, output)[..|HeaderLines(w)| + u];
    WhoIntroduces(before, users[u].username);
    if UserRef(users[u].username) in Introduced(before) {
      var k :| 0 <= k < |before| && before[k].UserLine? && before[k].username == users[u].username;
      SectionBefore(w, users, output, u, k);
      assert false;
    }
  }

  lemma UsersFit(w: World, users: seq<User>, output: seq<Encoder.Encoded>, u: nat)
    requires u < |users|
    ensures |HeaderLines(w)| + u < |Sections(w, users, output)|
    ensures Sections(w, users, output)[|HeaderLines(w)| + u] == if Early(w, output, u) then FullLine(users[u]) else PlainLine(users[u])
  {
    hide HeaderLines, Memberships, EmojiLines, DirectLines, Early, FullLine, PlainLine;
  }

  /** A first line with channels refers to its user, whom no earlier line introduces. */
  lemma EarlyNotClosed(w: World, users: seq<User>, output: seq<Encoder.Encoded>, u: nat)
    requires UsernamesDistinct(users) && u < |users| && Early(w, output, u) && !NoChannels(users[u])
    ensures !Closed({}, Sections(w, users, output))
  {
    var k := |HeaderLines(w)| + u;
    NotYetIntroduced(w, users, output, u);
    UsersFit(w, users, output, u);
    FullNeedsUser(users[u]);
    hide HeaderLines, Sections, RefersTo, Introduced, FullLine;
    var lines := Sections(w, users, output);
    assert RefersTo(lines[k]) == RefersTo(FullLine(users[u]));
    assert !(RefersTo(lines[k]) <= {} + Introduced(lines[..k]));
  }

  lemma FullNeedsUser(user: User)
    requires !NoChannels(user)
    ensures UserRef(user.username) in RefersTo(FullLine(user))
  {
    var k :| 0 <= k < |user.teams| && user.teams[k].channels != [];
    var e := Entries(user.teams)[k];
    assert e in Entries(user.teams) && e.channels != [];
    assert IsMembershipLine(FullLine(user));
  }

  /**
   Every scheme, team, channel and user a line of the written file refers to was introduced by an earlier line, in
   every interleaving, if and only if no user at risk has a channel.
   */
  lemma ReferencesExactly(w: World, users: seq<User>)
    requires Consistent(w, users) && UsernamesDistinct(users)
    ensures Always(w, users, lines => Closed({}, lines)) <==> NobodyAtRisk(w, users)
  {
    ReferencesPointBackwards(w, users);
    hide Finished, AreLines, Written, Early, Closed, FileLines, Sections, Always, Consistent, UsernamesDistinct, NobodyAtRisk, NoChannels;
    forall s: Encoder.State | Finished(w, users, s) && AreLines(w, users, s.output) && !NoneEarly(w, users, s.output)
      ensures !Closed({}, Written(w, users, s.output))
    {
      FileComesOut(w, users, s);
      var u :| 0 <= u < |users| && Early(w, s.output, u) && !NoChannels(users[u]);
      EarlyNotClosed(w, users, s.output, u);
    }
    AlwaysExactly(w, users, lines => Closed({}, lines));
  }

  // ---------------------------------------------------------------- references when a line brings its own user

  /** Every reference of line k was introduced by an earlier line, or by the line itself. */
  predicate LineClosedWithOwn(lines: seq<ImportLine>, k: nat)
    requires k < |lines|
  {
    RefersTo(lines[k]) <= Introduced(lines[..k]) + Introduces(lines[k])
  }

  ghost predicate ClosedWithOwn(lines: seq<ImportLine>) {
    forall k :: 0 <= k < |lines| ==> LineClosedWithOwn(lines, k)
  }

  lemma {:induction false} SameIntroduced(a: seq<ImportLine>, b: seq<ImportLine>)
    requires |a| == |b| && forall k :: 0 <= k < |a| ==> Introduces(a[k]) == Introduces(b[k])
    ensures Introduced(a) == Introduced(b)
    decreases |a|
  {
    hide Introduces;
    if |a| > 0 {
      SameIntroduced(a[..|a| - 1], b[..|b| - 1]);
    }
  }

  lemma SameIntroducedBefore(w: World, users: seq<User>, output: seq<Encoder.Encoded>, k: nat)
    requires k < |FileLines(w, users)|
    ensures |Sections(w, users, output)| == |FileLines(w, users)|
    ensures Introduced(Sections(w, users, output)[..k]) == Introduced(FileLines(w, users)[..k])
  {
    hide FileLines, Sections, HeaderLines, Early, Introduced, Entries, Stripped;
    SectionsLength(w, users, output);
    var a, b := Sections(w, users, output)[..k], FileLines(w, users)[..k];
    forall j | 0 <= j < k ensures Introduces(a[j]) == Introduces(b[j]) {
      SectionAt(w, users, output, j);
    }
    SameIntroduced(a, b);
  }

  /** The header introduces the teams and channels a user's full line names. */
  lemma FullLineKnown(w: World, users: seq<User>, u: nat, known: set<Ref>)
    requires Consistent(w, users) && u < |users| && KnowsWorld(w, known)
    ensures RefersTo(FullLine(users[u])) <= known + {UserRef(users[u].username)}
  {
    var user := users[u];
    forall e | e in Entries(user.teams)
      ensures TeamRef(e.name) in known && forall c :: c in e.channels ==> ChannelRef(e.name, c) in known
    {
      var k :| 0 <= k < |user.teams| && e == TeamEntry(user.teams[k].name, user.teams[k].channels);
      assert HasTeamNamed(w, user.teams[k].name);
      var t :| t in w.teams && t.name == e.name;
      assert TeamRef(t.name) in TeamRefs(w);
      forall c | c in e.channels ensures ChannelRef(e.name, c) in known {
        assert HasChannel(w, user.teams[k].name, c);
        var channel :| channel in w.channels && channel.team == e.name && channel.name == c;
        assert ChannelRef(channel.team, channel.name) in ChannelRefs(w);
      }
    }
  }

  lemma FrontOf<T>(a: seq<T>, rest: seq<T>, n: nat)
    requires |a| <= n <= |a| + |rest|
    ensures (a + rest)[..n] == a + rest[..n - |a|]
  {
  }

  lemma HeaderFirst(w: World, users: seq<User>) returns (rest: seq<ImportLine>)
    ensures FileLines(w, users) == HeaderLines(w) + rest && |rest| >= |users|
  {
    var a, b, c, d, e := HeaderLines(w), PlainLines(users), EmojiLines(w), Memberships(users, |users|), DirectLines(w);
    rest := b + (c + (d + e));
    hide HeaderLines, PlainLine, EmojiLines, Memberships, DirectLines;
    assert a + b + c + d + e == a + (b + (c + (d + e)));
  }

  lemma KnowsMore(w: World, known: set<Ref>, more: set<Ref>)
    requires KnowsWorld(w, known)
    ensures KnowsWorld(w, known + more)
  {
    hide TeamRefs, ChannelRefs;
  }

  lemma HeaderBefore(w: World, users: seq<User>, u: nat)
    requires Consistent(w, users) && u < |users|
    ensures |HeaderLines(w)| + u <= |FileLines(w, users)|
    ensures KnowsWorld(w, Introduced(FileLines(w, users)[..|HeaderLines(w)| + u]))
  {
    hide HeaderLines, FileLines, Introduced, Consistent, KnowsWorld, Closed;
    HeaderClosed(w, users);
    var rest := HeaderFirst(w, users);
    FrontOf(HeaderLines(w), rest, |HeaderLines(w)| + u);
    IntroducedConcat(HeaderLines(w), rest[..u]);
    KnowsMore(w, Introduced(HeaderLines(w)), Introduced(rest[..u]));
  }

  /** An early first line, at its place. */
  lemma EarlyLineClosed(w: World, users: seq<User>, u: nat)
    requires Consistent(w, users) && u < |users|
    ensures |HeaderLines(w)| + u <= |FileLines(w, users)|
    ensures RefersTo(FullLine(users[u]))
            <= Introduced(FileLines(w, users)[..|HeaderLines(w)| + u]) + Introduces(FullLine(users[u]))
  {
    hide HeaderLines, FileLines, Introduced, Introduces, Consistent, RefersTo, FullLine, KnowsWorld;
    HeaderBefore(w, users, u);
    FullLineKnown(w, users, u, Introduced(FileLines(w, users)[..|HeaderLines(w)| + u]));
    OwnUser(users[u]);
  }

  lemma SentLineClosed(lines: seq<ImportLine>, k: nat)
    requires Closed({}, lines) && k < |lines|
    ensures RefersTo(lines[k]) <= Introduced(lines[..k])
  {
    hide RefersTo, Introduced;
    assert RefersTo(lines[k]) <= {} + Introduced(lines[..k]);
  }

  lemma WrittenAsSent(w: World, users: seq<User>, output: seq<Encoder.Encoded>, k: nat)
    requires Consistent(w, users) && k < |FileLines(w, users)| == |Sections(w, users, output)|
    requires Sections(w, users, output)[k] == FileLines(w, users)[k]
    ensures LineClosedWithOwn(Sections(w, users, output), k)
  {
    hide FileLines, Sections, Consistent, RefersTo, Introduced, Introduces, Closed;
    ReferencesPointBackwards(w, users);
    SentLineClosed(FileLines(w, users), k);
    SameIntroducedBefore(w, users, output, k);
  }

  lemma WrittenEarly(w: World, users: seq<User>, output: seq<Encoder.Encoded>, u: nat)
    requires Consistent(w, users) && u < |users| && |HeaderLines(w)| + u < |FileLines(w, users)| == |Sections(w, users, output)|
    requires Sections(w, users, output)[|HeaderLines(w)| + u] == FullLine(users[u])
    ensures LineClosedWithOwn(Sections(w, users, output), |HeaderLines(w)| + u)
  {
    hide FileLines, Sections, HeaderLines, Consistent, RefersTo, Introduced, Introduces, FullLine;
    EarlyLineClosed(w, users, u);
    SameIntroducedBefore(w, users, output, |HeaderLines(w)| + u);
  }

  lemma WrittenLineClosed(w: World, users: seq<User>, output: seq<Encoder.Encoded>, k: nat)
    requires Consistent(w, users) && k < |FileLines(w, users)|
    ensures |Sections(w, users, output)| == |FileLines(w, users)|
    ensures LineClosedWithOwn(Sections(w, users, output), k)
  {
    hide FileLines, Sections, HeaderLines, Consistent, Early, FullLine, PlainLine, LineClosedWithOwn;
    SectionAt(w, users, output, k);
    var u := k - |HeaderLines(w)|;
    if 0 <= u < |users| && Early(w, output, u) {
      WrittenEarly(w, users, output, u);
    } else {
      WrittenAsSent(w, users, output, k);
    }
  }

  /**
   If a line may bring the user it is about, the written file refers backwards in every interleaving and without any
   condition: schemes, teams and channels, and the members of direct channels, always come first.
   */
  lemma OthersAlwaysIntroduced(w: World, users: seq<User>, s: Encoder.State)
    requires Consistent(w, users) && Finished(w, users, s)
    ensures AreLines(w, users, s.output) && ClosedWithOwn(Written(w, users, s.output))
  {
    hide Finished, AreLines, Written, FileLines, Sections, Consistent, LineClosedWithOwn;
    FileComesOut(w, users, s);
    SectionsLength(w, users, s.output);
    forall k | 0 <= k < |Sections(w, users, s.output)|
      ensures LineClosedWithOwn(Sections(w, users, s.output), k)
    {
      WrittenLineClosed(w, users, s.output, k);
    }
  }

  lemma OwnUser(user: User)
    ensures Introduces(FullLine(user)) == {UserRef(user.username)}
  {
  }

  // ---------------------------------------------------------------- the generated file

  /** The user names the generator makes. */
  function NumberedNames(fakes: seq<string>): seq<string> {
    seq(|fakes|, n requires 0 <= n < |fakes| => UserName(fakes[n], n))
  }

  /** Whatever the generator makes up and draws: the round trip of each of its users through the written file. */
  lemma GeneratedRoundTripExactly(p: Plan, drafts: seq<seq<Draft>>, fakes: seq<string>, w: World, u: nat)
    requires FromGenerator(p, drafts, w) && |fakes| == p.numUsers && u < p.numUsers
    ensures Valid(p)
    ensures var users := Generated(p, NumberedNames(fakes));
            && u < |users|
            && (Always(w, users, lines => RoundTrip(users[u], lines)) <==> !AtRisk(w, users, u) || NoChannels(users[u]))
  {
    var names := NumberedNames(fakes);
    UserNamesDistinct(fakes);
    GeneratorIsSound(p, drafts, w);
    hide FromGenerator, Valid, NamesDistinct, Generated, Always, AtRisk, NoChannels, UserName;
    GeneratedNames(p, names);
    GeneratedTeams(p, names, u);
    RoundTripExactly(w, Generated(p, names), u);
  }

  lemma GeneratedNames(p: Plan, names: seq<string>)
    requires Valid(p) && |names| == p.numUsers && Distinct(names)
    ensures |Generated(p, names)| == p.numUsers && UsernamesDistinct(Generated(p, names))
  {
    var users := Generated(p, names);
    hide Valid, Final;
    forall m | 0 <= m < |users| ensures users[m].username == names[m] {
      NameKept(p, names[m], m);
    }
  }

  lemma NameKept(p: Plan, name: string, u: nat)
    requires Valid(p)
    ensures Final(p, name, u).username == name
  {
    hide Valid, AfterTeams, RecordFor;
    RecordIsFilter(p, name, u, |p.teams|);
  }

  lemma GeneratedTeams(p: Plan, names: seq<string>, u: nat)
    requires Valid(p) && NamesDistinct(p) && |names| == p.numUsers && u < p.numUsers
    ensures TeamsDistinct(Generated(p, names)[u])
  {
    hide NamesDistinct;
    FinalTeamsDistinct(p, names[u], u);
  }

  lemma FinalTeamsDistinct(p: Plan, name: string, u: nat)
    requires Valid(p) && NamesDistinct(p)
    ensures TeamsDistinct(Final(p, name, u))
  {
    hide Valid, NamesDistinct, AfterTeams;
    if |p.teams| > 0 {
      TeamsExact(p, name, u, 0);
    } else {
      NoTeams(p, name, u);
    }
  }

  lemma NoTeams(p: Plan, name: string, u: nat)
    requires Valid(p) && |p.teams| == 0
    ensures |Final(p, name, u).teams| == 0
  {
  }

  /** makeDirectChannels and makeGroupChannels, one after the other. */
  function DirectOf(members: seq<(string, string)>, groups: seq<seq<string>>): seq<seq<string>> {
    seq(|members|, k requires 0 <= k < |members| => [members[k].0, members[k].1]) + groups
  }

  /** Pairs and groups of these names, as the two makers promise them. */
  ghost predicate MadeOf(names: seq<string>, members: seq<(string, string)>, groups: seq<seq<string>>) {
    && (forall k :: 0 <= k < |members| ==> members[k].0 in names && members[k].1 in names)
    && (forall k :: 0 <= k < |groups| ==> GroupChannels.IsGroup(groups[k], names))
  }

  /** The two members are the k-th pair of users, row by row. */
  ghost predicate IsPair(names: seq<string>, k: nat, members: seq<string>) {
    exists i: nat, j: nat :: i < j < |names| && DirectChannels.PairsBefore(|names|, i, j) == k && members == [names[i], names[j]]
  }

  method MakeAllDirectChannels(names: seq<string>, numDirect: nat, numGroups: nat)
    returns (direct: seq<seq<string>>, members: seq<(string, string)>, groups: seq<seq<string>>)
    requires Distinct(names)
    ensures direct == DirectOf(members, groups) && MadeOf(names, members, groups)
    ensures |direct| == |members| + |groups| && |groups| <= numGroups
    ensures var n := |names|; |members| == if numDirect > n / 2 * (n - 1) then n / 2 * (n - 1) else numDirect
    ensures forall k :: 0 <= k < |members| ==> IsPair(names, k, direct[k])
    ensures forall k :: 0 <= k < |groups| ==>
              && direct[|members| + k] == groups[k] && 3 <= |groups[k]| <= 8 && GroupChannels.IsGroup(groups[k], names)
  {
    var pairsOfNames, pairs := DirectChannels.MakeDirectChannels(names, numDirect);
    var groupsOfNames, stop := GroupChannels.MakeGroupChannels(names, numGroups);
    direct := [];
    for k := 0 to |pairsOfNames|
      invariant direct == DirectOf(pairsOfNames[..k], [])
    {
      direct := direct + [[pairsOfNames[k].0, pairsOfNames[k].1]];
    }
    assert pairsOfNames[..|pairsOfNames|] == pairsOfNames;
    direct := direct + groupsOfNames;
    members, groups := pairsOfNames, groupsOfNames;
    forall k | 0 <= k < |pairs| ensures IsPair(names, k, direct[k]) {
      assert direct[k] == DirectOf(pairsOfNames, [])[k] == [names[pairs[k].lo], names[pairs[k].hi]];
      assert pairs[k].lo < pairs[k].hi < |names| && DirectChannels.PairsBefore(|names|, pairs[k].lo, pairs[k].hi) == k;
    }
  }

  lemma DirectMembers(names: seq<string>, members: seq<(string, string)>, groups: seq<seq<string>>)
    requires MadeOf(names, members, groups)
    ensures forall d, m :: d in DirectOf(members, groups) && m in d ==> m in names
  {
    forall d, m | d in DirectOf(members, groups) && m in d ensures m in names {
      var k :| 0 <= k < |DirectOf(members, groups)| && DirectOf(members, groups)[k] == d;
      if k >= |members| {
        assert d == groups[k - |members|];
      }
    }
  }

  /** And the references, with the direct channels the two makers make of those users. */
  lemma GeneratedReferencesExactly(p: Plan, drafts: seq<seq<Draft>>, fakes: seq<string>, w: World,
                                   members: seq<(string, string)>, groups: seq<seq<string>>)
    requires FromGenerator(p, drafts, w) && |fakes| == p.numUsers
    requires w.direct == DirectOf(members, groups) && MadeOf(NumberedNames(fakes), members, groups)
    ensures Valid(p)
    ensures var users := Generated(p, NumberedNames(fakes));
            Always(w, users, lines => Closed({}, lines)) <==> NobodyAtRisk(w, users)
  {
    var names := NumberedNames(fakes);
    UserNamesDistinct(fakes);
    DirectMembers(names, members, groups);
    GeneratorIsSound(p, drafts, w);
    hide FromGenerator, Valid, NamesDistinct, UserName, DirectOf, MadeOf;
    GeneratedNames(p, names);
    GeneratedConsistent(p, names, w);
    hide Always, Generated, NobodyAtRisk, Consistent;
    ReferencesExactly(w, Generated(p, names));
  }
}
