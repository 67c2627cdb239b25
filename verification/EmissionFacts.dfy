/** What a reader of the import file can rely on: references point backwards, and the memberships can be read back. */
module EmissionFacts {
  import opened Collections
  import opened Membership
  import opened Emission

  // ---------------------------------------------------------------- references point backwards

  datatype Ref =
    | SchemeRef(scheme: string)
    | TeamRef(team: string)
    | ChannelRef(team: string, channel: string)
    | UserRef(username: string)

  /** What a line introduces for later lines to refer to. */
  function Introduces(line: ImportLine): set<Ref> {
    match line
    case SchemeLine(name) => {SchemeRef(name)}
    case TeamLine(team) => {TeamRef(team.name)}
    case ChannelLine(channel) => {ChannelRef(channel.team, channel.name)}
    case UserLine(username, _) => {UserRef(username)}
    case _ => {}
  }

  function OptionalScheme(name: string): set<Ref> {
    if name == "" then {} else {SchemeRef(name)}
  }

  /** A user line with channels repeats a user that must exist already; one without introduces it. */
  predicate IsMembershipLine(line: ImportLine) {
    line.UserLine? && exists e :: e in line.entries && e.channels != []
  }

  /** What a line needs to have been introduced before it. */
  function RefersTo(line: ImportLine): set<Ref> {
    match line
    case TeamLine(team) => OptionalScheme(team.scheme)
    case ChannelLine(channel) => {TeamRef(channel.team)} + OptionalScheme(channel.scheme)
    case UserLine(username, entries) =>
      (set e | e in entries :: TeamRef(e.name))
      + (set e, c | e in entries && c in e.channels :: ChannelRef(e.name, c))
      + (if IsMembershipLine(line) then {UserRef(username)} else {})
    case DirectLine(members) => set m | m in members :: UserRef(m)
    case _ => {}
  }

  function Introduced(lines: seq<ImportLine>): set<Ref> {
    if lines == [] then {} else Introduced(lines[..|lines| - 1]) + Introduces(lines[|lines| - 1])
  }

  lemma {:induction false} IntroducedAt(lines: seq<ImportLine>, k: nat)
    requires k < |lines|
    ensures Introduces(lines[k]) <= Introduced(lines)
  {
    if k < |lines| - 1 {
      IntroducedAt(lines[..|lines| - 1], k);
    }
  }

  lemma {:induction false} IntroducedConcat(a: seq<ImportLine>, b: seq<ImportLine>)
    ensures Introduced(a + b) == Introduced(a) + Introduced(b)
    decreases |b|
  {
    if b == [] {
      assert a + b == a;
    } else {
      IntroducedConcat(a, b[..|b| - 1]);
      assert (a + b)[..|a + b| - 1] == a + b[..|b| - 1];
    }
  }

  /** Every line's references are known beforehand or introduced by an earlier line. */
  ghost predicate Closed(known: set<Ref>, lines: seq<ImportLine>) {
    forall k :: 0 <= k < |lines| ==> RefersTo(lines[k]) <= known + Introduced(lines[..k])
  }

  lemma ClosedConcat(known: set<Ref>, a: seq<ImportLine>, b: seq<ImportLine>)
    requires Closed(known, a) && Closed(known + Introduced(a), b)
    ensures Closed(known, a + b)
  {
    var lines := a + b;
    forall k | 0 <= k < |lines| ensures RefersTo(lines[k]) <= known + Introduced(lines[..k]) {
      if k < |a| {
        assert lines[..k] == a[..k];
      } else {
        assert lines[..k] == a + b[..k - |a|];
        IntroducedConcat(a, b[..k - |a|]);
        assert RefersTo(b[k - |a|]) <= known + Introduced(a) + Introduced(b[..k - |a|]);
      }
    }
  }

  lemma AllKnownClosed(known: set<Ref>, lines: seq<ImportLine>)
    requires forall k :: 0 <= k < |lines| ==> RefersTo(lines[k]) <= known
    ensures Closed(known, lines)
  {
  }

  predicate HasTeamNamed(w: World, name: string) { exists t :: t in w.teams && t.name == name }

  predicate HasChannel(w: World, team: string, name: string) { exists c :: c in w.channels && c.team == team && c.name == name }

  /** How the generator builds its data: each list refers only to names in the lists it was drawn from. */
  ghost predicate Consistent(w: World, users: seq<User>) {
    && (forall t :: t in w.teams ==> t.scheme == "" || t.scheme in w.teamSchemes)
    && (forall c :: c in w.channels ==> HasTeamNamed(w, c.team) && (c.scheme == "" || c.scheme in w.channelSchemes))
    && (forall i, k :: 0 <= i < |users| && 0 <= k < |users[i].teams| ==>
          && HasTeamNamed(w, users[i].teams[k].name)
          && forall c :: c in users[i].teams[k].channels ==> HasChannel(w, users[i].teams[k].name, c))
    && (forall d, m :: d in w.direct && m in d ==> exists i :: 0 <= i < |users| && users[i].username == m)
  }

  ghost function SchemeRefs(w: World): set<Ref> {
    set s | s in w.teamSchemes + w.channelSchemes :: SchemeRef(s)
  }

  ghost function TeamRefs(w: World): set<Ref> { set t | t in w.teams :: TeamRef(t.name) }

  ghost function ChannelRefs(w: World): set<Ref> { set c | c in w.channels :: ChannelRef(c.team, c.name) }

  ghost function UserRefs(users: seq<User>): set<Ref> { set u | u in users :: UserRef(u.username) }

  lemma {:induction false} IntroducedBySection(lines: seq<ImportLine>, refs: set<Ref>)
    requires forall r :: r in refs ==> exists k :: 0 <= k < |lines| && r in Introduces(lines[k])
    ensures refs <= Introduced(lines)
  {
    forall r | r in refs ensures r in Introduced(lines) {
      var k :| 0 <= k < |lines| && r in Introduces(lines[k]);
      IntroducedAt(lines, k);
    }
  }

  function SchemeSection(w: World): seq<ImportLine> {
    var names := w.teamSchemes + w.channelSchemes;
    [VersionLine] + seq(|names|, i requires 0 <= i < |names| => SchemeLine(names[i]))
  }

  function TeamSection(w: World): seq<ImportLine> {
    seq(|w.teams|, i requires 0 <= i < |w.teams| => TeamLine(w.teams[i]))
  }

  function ChannelSection(w: World): seq<ImportLine> {
    seq(|w.channels|, i requires 0 <= i < |w.channels| => ChannelLine(w.channels[i]))
  }

  lemma HeaderSections(w: World)
    ensures HeaderLines(w) == SchemeSection(w) + TeamSection(w) + ChannelSection(w)
  {
  }

  lemma SchemesIntroduced(w: World)
    ensures Closed({}, SchemeSection(w)) && SchemeRefs(w) <= Introduced(SchemeSection(w))
  {
    var lines, names := SchemeSection(w), w.teamSchemes + w.channelSchemes;
    forall r | r in SchemeRefs(w) ensures exists k :: 0 <= k < |lines| && r in Introduces(lines[k]) {
      var k :| 0 <= k < |names| && r == SchemeRef(names[k]);
      assert lines[k + 1] == SchemeLine(names[k]);
    }
    IntroducedBySection(lines, SchemeRefs(w));
  }

  lemma TeamsIntroduced(w: World, users: seq<User>, known: set<Ref>)
    requires Consistent(w, users) && SchemeRefs(w) <= known
    ensures Closed(known, TeamSection(w)) && TeamRefs(w) <= Introduced(TeamSection(w))
  {
    var lines := TeamSection(w);
    forall k | 0 <= k < |lines| ensures RefersTo(lines[k]) <= known {
      assert w.teams[k] in w.teams;
      assert RefersTo(lines[k]) <= SchemeRefs(w);
    }
    AllKnownClosed(known, lines);
    forall r | r in TeamRefs(w) ensures exists k :: 0 <= k < |lines| && r in Introduces(lines[k]) {
      var k :| 0 <= k < |w.teams| && r == TeamRef(w.teams[k].name);
      assert r in Introduces(lines[k]);
    }
    IntroducedBySection(lines, TeamRefs(w));
  }

  lemma ChannelsIntroduced(w: World, users: seq<User>, known: set<Ref>)
    requires Consistent(w, users) && SchemeRefs(w) + TeamRefs(w) <= known
    ensures Closed(known, ChannelSection(w)) && ChannelRefs(w) <= Introduced(ChannelSection(w))
  {
    var lines := ChannelSection(w);
    forall k | 0 <= k < |lines| ensures RefersTo(lines[k]) <= known {
      assert w.channels[k] in w.channels;
      assert RefersTo(lines[k]) <= SchemeRefs(w) + TeamRefs(w);
    }
    AllKnownClosed(known, lines);
    forall r | r in ChannelRefs(w) ensures exists k :: 0 <= k < |lines| && r in Introduces(lines[k]) {
      var k :| 0 <= k < |w.channels| && r == ChannelRef(w.channels[k].team, w.channels[k].name);
      assert r in Introduces(lines[k]);
    }
    IntroducedBySection(lines, ChannelRefs(w));
  }

  lemma HeaderClosed(w: World, users: seq<User>)
    requires Consistent(w, users)
    ensures Closed({}, HeaderLines(w)) && KnowsWorld(w, Introduced(HeaderLines(w)))
  {
    HeaderSections(w);
    var schemes, teams, channels := SchemeSection(w), TeamSection(w), ChannelSection(w);
    SchemesIntroduced(w);
    TeamsIntroduced(w, users, Introduced(schemes));
    NextSection(schemes, teams);
    ChannelsIntroduced(w, users, Introduced(schemes + teams));
    NextSection(schemes + teams, channels);
  }

  /** What the lines after the header may rely on. */
  ghost predicate KnowsWorld(w: World, known: set<Ref>) {
    TeamRefs(w) + ChannelRefs(w) <= known
  }

  lemma PlainClosed(w: World, users: seq<User>, known: set<Ref>)
    requires Consistent(w, users) && KnowsWorld(w, known)
    ensures Closed(known, PlainLines(users)) && UserRefs(users) <= Introduced(PlainLines(users))
  {
    var lines := PlainLines(users);
    forall k | 0 <= k < |lines| ensures RefersTo(lines[k]) <= known {
      var entries := Entries(Stripped(users[k]).teams);
      forall r | r in RefersTo(lines[k]) ensures r in known {
        var m :| 0 <= m < |entries| && r == TeamRef(entries[m].name);
        assert HasTeamNamed(w, users[k].teams[m].name);
        assert r in TeamRefs(w);
      }
    }
    AllKnownClosed(known, lines);
    forall r | r in UserRefs(users) ensures exists k :: 0 <= k < |lines| && r in Introduces(lines[k]) {
      var k :| 0 <= k < |users| && r == UserRef(users[k].username);
      assert lines[k] == PlainLine(users[k]);
    }
    IntroducedBySection(lines, UserRefs(users));
  }

  lemma ChunkLineKnown(w: World, users: seq<User>, known: set<Ref>, i: nat, k: nat, chunk: seq<string>)
    requires Consistent(w, users) && KnowsWorld(w, known) && UserRefs(users) <= known
    requires i < |users| && k < |users[i].teams| && forall c :: c in chunk ==> c in users[i].teams[k].channels
    ensures RefersTo(ChunkLine(users[i].username, users[i].teams[k].name, chunk)) <= known
  {
    var line := ChunkLine(users[i].username, users[i].teams[k].name, chunk);
    var team := users[i].teams[k].name;
    assert users[i] in users;
    assert HasTeamNamed(w, team);
    forall r | r in RefersTo(line) ensures r in known {
      if r == UserRef(users[i].username) {
        assert r in UserRefs(users);
      } else if r == TeamRef(team) {
        assert r in TeamRefs(w);
      } else {
        var c :| c in chunk && r == ChannelRef(team, c);
        assert HasChannel(w, team, c);
        assert r in ChannelRefs(w);
      }
    }
  }

  lemma {:induction false} FlattenMember<T>(ss: seq<seq<T>>, m: nat, x: T)
    requires m < |ss| && x in ss[m]
    ensures x in Flatten(ss)
    decreases |ss|
  {
    if m > 0 {
      FlattenMember(ss[1..], m - 1, x);
    }
  }

  lemma {:induction false} MemberLinesKnown(w: World, users: seq<User>, known: set<Ref>, i: nat, n: nat)
    requires Consistent(w, users) && KnowsWorld(w, known) && UserRefs(users) <= known
    requires i < |users| && n <= |users[i].teams|
    ensures forall k :: 0 <= k < |MemberLines(users[i], n)| ==> RefersTo(MemberLines(users[i], n)[k]) <= known
    decreases n
  {
    if n > 0 {
      MemberLinesKnown(w, users, known, i, n - 1);
      var team := users[i].teams[n - 1];
      var chunks := Chunks(team.channels);
      ChunksFacts(team.channels);
      forall m | 0 <= m < |chunks| ensures RefersTo(ChunkLines(users[i].username, team.name, chunks)[m]) <= known {
        forall c | c in chunks[m] ensures c in team.channels {
          FlattenMember(chunks, m, c);
        }
        ChunkLineKnown(w, users, known, i, n - 1, chunks[m]);
      }
    }
  }

  lemma {:induction false} MembershipsKnown(w: World, users: seq<User>, known: set<Ref>, n: nat)
    requires Consistent(w, users) && KnowsWorld(w, known) && UserRefs(users) <= known && n <= |users|
    ensures forall k :: 0 <= k < |Memberships(users, n)| ==> RefersTo(Memberships(users, n)[k]) <= known
    decreases n
  {
    if n > 0 {
      MembershipsKnown(w, users, known, n - 1);
      MemberLinesKnown(w, users, known, n - 1, |users[n - 1].teams|);
    }
  }

  lemma DirectKnown(w: World, users: seq<User>, known: set<Ref>)
    requires Consistent(w, users) && UserRefs(users) <= known
    ensures forall k :: 0 <= k < |DirectLines(w)| ==> RefersTo(DirectLines(w)[k]) <= known
  {
    forall k | 0 <= k < |DirectLines(w)| ensures RefersTo(DirectLines(w)[k]) <= known {
      assert w.direct[k] in w.direct;
      forall r | r in RefersTo(DirectLines(w)[k]) ensures r in known {
        var m :| m in w.direct[k] && r == UserRef(m);
        var i :| 0 <= i < |users| && users[i].username == m;
        assert users[i] in users;
        assert r in UserRefs(users);
      }
    }
  }

  lemma NextSection(before: seq<ImportLine>, section: seq<ImportLine>)
    requires Closed({}, before)
    requires Closed(Introduced(before), section)
    ensures Closed({}, before + section)
    ensures Introduced(before) + Introduced(section) == Introduced(before + section)
  {
    assert {} + Introduced(before) == Introduced(before);
    ClosedConcat({}, before, section);
    IntroducedConcat(before, section);
  }

  /** The lines up to the emoji know the teams, the channels and the users. */
  lemma FirstHalfClosed(w: World, users: seq<User>)
    requires Consistent(w, users)
    ensures var lines := HeaderLines(w) + PlainLines(users) + EmojiLines(w);
            Closed({}, lines) && KnowsWorld(w, Introduced(lines)) && UserRefs(users) <= Introduced(lines)
  {
    hide Closed, Introduced, HeaderLines, PlainLines, EmojiLines, UserRefs, TeamRefs, ChannelRefs;
    var header, plain, emoji := HeaderLines(w), PlainLines(users), EmojiLines(w);
    HeaderClosed(w, users);
    PlainClosed(w, users, Introduced(header));
    NextSection(header, plain);
    EmojiClosed(w, Introduced(header + plain));
    NextSection(header + plain, emoji);
  }

  lemma EmojiClosed(w: World, known: set<Ref>)
    ensures Closed(known, EmojiLines(w))
  {
    AllKnownClosed(known, EmojiLines(w));
  }

  lemma SecondHalfClosed(w: World, users: seq<User>, before: seq<ImportLine>)
    requires Consistent(w, users)
    requires Closed({}, before) && KnowsWorld(w, Introduced(before)) && UserRefs(users) <= Introduced(before)
    ensures Closed({}, before + Memberships(users, |users|) + DirectLines(w))
  {
    hide Introduced, Memberships, DirectLines, UserRefs, TeamRefs, ChannelRefs;
    var members, direct := Memberships(users, |users|), DirectLines(w);
    MembershipsKnown(w, users, Introduced(before), |users|);
    AllKnownClosed(Introduced(before), members);
    NextSection(before, members);
    DirectKnown(w, users, Introduced(before + members));
    AllKnownClosed(Introduced(before + members), direct);
    NextSection(before + members, direct);
  }

  /** Every scheme, team, channel and user a line of the file refers to was introduced by an earlier line. */
  lemma ReferencesPointBackwards(w: World, users: seq<User>)
    requires Consistent(w, users)
    ensures Closed({}, FileLines(w, users))
  {
    FirstHalfClosed(w, users);
    SecondHalfClosed(w, users, HeaderLines(w) + PlainLines(users) + EmojiLines(w));
  }

  // ---------------------------------------------------------------- the references, spelled out

  ghost predicate SchemeBefore(lines: seq<ImportLine>, k: nat, scheme: string)
    requires k <= |lines|
  {
    exists j :: 0 <= j < k && lines[j] == SchemeLine(scheme)
  }

  ghost predicate TeamBefore(lines: seq<ImportLine>, k: nat, team: string)
    requires k <= |lines|
  {
    exists j :: 0 <= j < k && lines[j].TeamLine? && lines[j].team.name == team
  }

  ghost predicate ChannelBefore(lines: seq<ImportLine>, k: nat, team: string, channel: string)
    requires k <= |lines|
  {
    exists j :: 0 <= j < k && lines[j].ChannelLine? && lines[j].channel.team == team && lines[j].channel.name == channel
  }

  ghost predicate UserBefore(lines: seq<ImportLine>, k: nat, username: string)
    requires k <= |lines|
  {
    exists j :: 0 <= j < k && lines[j].UserLine? && lines[j].username == username
  }

  lemma {:induction false} IntroducedBefore(lines: seq<ImportLine>, k: nat, r: Ref)
    requires k <= |lines|
    ensures r in Introduced(lines[..k]) <==> exists j :: 0 <= j < k && r in Introduces(lines[j])
    decreases k
  {
    hide Introduces;
    if k > 0 {
      IntroducedBefore(lines, k - 1, r);
      assert lines[..k][..k - 1] == lines[..k - 1] && lines[..k][k - 1] == lines[k - 1];
    }
  }

  lemma BeforeExactly(lines: seq<ImportLine>, k: nat, a: string, b: string)
    requires k <= |lines|
    ensures SchemeRef(a) in Introduced(lines[..k]) <==> SchemeBefore(lines, k, a)
    ensures TeamRef(a) in Introduced(lines[..k]) <==> TeamBefore(lines, k, a)
    ensures ChannelRef(a, b) in Introduced(lines[..k]) <==> ChannelBefore(lines, k, a, b)
    ensures UserRef(a) in Introduced(lines[..k]) <==> UserBefore(lines, k, a)
  {
    hide Introduced;
    IntroducedBefore(lines, k, SchemeRef(a));
    IntroducedBefore(lines, k, TeamRef(a));
    IntroducedBefore(lines, k, ChannelRef(a, b));
    IntroducedBefore(lines, k, UserRef(a));
  }

  /** What line k names stands in earlier lines. */
  ghost predicate NamesKnown(lines: seq<ImportLine>, k: nat)
    requires k < |lines|
  {
    match lines[k]
    case TeamLine(team) => team.scheme != "" ==> SchemeBefore(lines, k, team.scheme)
    case ChannelLine(channel) =>
      TeamBefore(lines, k, channel.team) && (channel.scheme != "" ==> SchemeBefore(lines, k, channel.scheme))
    case UserLine(username, entries) =>
      forall e :: e in entries ==>
        && TeamBefore(lines, k, e.name)
        && (forall c :: c in e.channels ==> ChannelBefore(lines, k, e.name, c))
        && (e.channels != [] ==> UserBefore(lines, k, username))
    case DirectLine(members) => forall m :: m in members ==> UserBefore(lines, k, m)
    case _ => true
  }

  lemma NamesKnownExactly(lines: seq<ImportLine>, k: nat)
    requires k < |lines|
    ensures RefersTo(lines[k]) <= Introduced(lines[..k]) <==> NamesKnown(lines, k)
  {
    hide Introduced, SchemeBefore, TeamBefore, ChannelBefore, UserBefore, RefersTo;
    forall a ensures SchemeRef(a) in Introduced(lines[..k]) <==> SchemeBefore(lines, k, a) {
      BeforeExactly(lines, k, a, "");
    }
    forall a ensures TeamRef(a) in Introduced(lines[..k]) <==> TeamBefore(lines, k, a) {
      BeforeExactly(lines, k, a, "");
    }
    forall a ensures UserRef(a) in Introduced(lines[..k]) <==> UserBefore(lines, k, a) {
      BeforeExactly(lines, k, a, "");
    }
    forall a, b ensures ChannelRef(a, b) in Introduced(lines[..k]) <==> ChannelBefore(lines, k, a, b) {
      BeforeExactly(lines, k, a, b);
    }
    if lines[k].UserLine? {
      UserNamesKnown(lines[k], Introduced(lines[..k]));
    } else {
      OtherNamesKnown(lines[k], Introduced(lines[..k]));
    }
  }

  lemma UserNamesKnown(line: ImportLine, known: set<Ref>)
    requires line.UserLine?
    ensures RefersTo(line) <= known <==>
              forall e :: e in line.entries ==>
                && TeamRef(e.name) in known
                && (forall c :: c in e.channels ==> ChannelRef(e.name, c) in known)
                && (e.channels != [] ==> UserRef(line.username) in known)
  {
    forall e | e in line.entries
      ensures TeamRef(e.name) in RefersTo(line)
      ensures forall c :: c in e.channels ==> ChannelRef(e.name, c) in RefersTo(line)
      ensures e.channels != [] ==> UserRef(line.username) in RefersTo(line)
    {
    }
  }

  lemma OtherNamesKnown(line: ImportLine, known: set<Ref>)
    requires !line.UserLine?
    ensures RefersTo(line) <= known <==>
              match line
              case TeamLine(team) => team.scheme != "" ==> SchemeRef(team.scheme) in known
              case ChannelLine(channel) =>
                TeamRef(channel.team) in known && (channel.scheme != "" ==> SchemeRef(channel.scheme) in known)
              case DirectLine(members) => forall m :: m in members ==> UserRef(m) in known
              case _ => true
  {
    if line.DirectLine? {
      forall m | m in line.members ensures UserRef(m) in RefersTo(line) {
      }
    }
  }

  /**
   That references point backwards means: a scheme, a team, a channel of the team named with it, and for a line that
   lists channels the user itself, and for a direct channel each member, all stand in earlier lines.
   */
  lemma ClosedExactly(lines: seq<ImportLine>)
    ensures Closed({}, lines) <==> forall k :: 0 <= k < |lines| ==> NamesKnown(lines, k)
  {
    hide RefersTo, Introduced, NamesKnown;
    forall k | 0 <= k < |lines| ensures RefersTo(lines[k]) <= {} + Introduced(lines[..k]) <==> NamesKnown(lines, k) {
      NamesKnownExactly(lines, k);
      assert {} + Introduced(lines[..k]) == Introduced(lines[..k]);
    }
  }

  // ---------------------------------------------------------------- the memberships can be read back

  /** The channels that the first n entries list for a team. */
  function EntryChannels(entries: seq<TeamEntry>, n: nat, team: string): seq<string>
    requires n <= |entries|
  {
    if n == 0 then []
    else EntryChannels(entries, n - 1, team) + if entries[n - 1].name == team then entries[n - 1].channels else []
  }

  function LineChannels(line: ImportLine, username: string, team: string): seq<string> {
    if line.UserLine? && line.username == username then EntryChannels(line.entries, |line.entries|, team) else []
  }

  /** The channels of a user in a team after an import of the first n lines, in order. */
  function LoadedBy(lines: seq<ImportLine>, n: nat, username: string, team: string): seq<string>
    requires n <= |lines|
  {
    if n == 0 then [] else LoadedBy(lines, n - 1, username, team) + LineChannels(lines[n - 1], username, team)
  }

  function Loaded(lines: seq<ImportLine>, username: string, team: string): seq<string> {
    LoadedBy(lines, |lines|, username, team)
  }

  lemma {:induction false} LoadedPrefix(a: seq<ImportLine>, b: seq<ImportLine>, n: nat, username: string, team: string)
    requires n <= |a|
    ensures LoadedBy(a + b, n, username, team) == LoadedBy(a, n, username, team)
  {
    if n > 0 {
      LoadedPrefix(a, b, n - 1, username, team);
    }
  }

  lemma {:induction false} LoadedConcat(a: seq<ImportLine>, b: seq<ImportLine>, n: nat, username: string, team: string)
    requires n <= |b|
    ensures LoadedBy(a + b, |a| + n, username, team) == Loaded(a, username, team) + LoadedBy(b, n, username, team)
  {
    hide LineChannels;
    if n == 0 {
      LoadedPrefix(a, b, |a|, username, team);
    } else {
      LoadedConcat(a, b, n - 1, username, team);
      assert (a + b)[|a| + n - 1] == b[n - 1];
      ConcatAssociative(Loaded(a, username, team), LoadedBy(b, n - 1, username, team), LineChannels(b[n - 1], username, team));
    }
  }

  lemma {:induction false} NothingLoaded(lines: seq<ImportLine>, n: nat, username: string, team: string)
    requires n <= |lines| && forall k :: 0 <= k < |lines| ==> |LineChannels(lines[k], username, team)| == 0
    ensures |LoadedBy(lines, n, username, team)| == 0
  {
    if n > 0 {
      NothingLoaded(lines, n - 1, username, team);
    }
  }

  lemma {:induction false} NoChannelsInEntries(entries: seq<TeamEntry>, n: nat, team: string)
    requires n <= |entries| && forall k :: 0 <= k < |entries| ==> |entries[k].channels| == 0
    ensures |EntryChannels(entries, n, team)| == 0
  {
    if n > 0 {
      NoChannelsInEntries(entries, n - 1, team);
    }
  }

  lemma LineOfChunk(username: string, name: string, chunk: seq<string>, team: string)
    ensures LineChannels(ChunkLine(username, name, chunk), username, team) == if name == team then chunk else []
  {
    var entries := [TeamEntry(name, chunk)];
    assert EntryChannels(entries, 1, team) == EntryChannels(entries, 0, team) + if name == team then chunk else [];
  }

  /** One chunk line more adds its chunk for its own team. */
  lemma LoadOneMore(username: string, name: string, chunks: seq<seq<string>>, n: nat, team: string)
    requires 0 < n <= |chunks|
    ensures LoadedBy(ChunkLines(username, name, chunks), n, username, team)
            == LoadedBy(ChunkLines(username, name, chunks), n - 1, username, team) + if name == team then chunks[n - 1] else []
  {
    hide LineChannels, Flatten;
    LineOfChunk(username, name, chunks[n - 1], team);
  }

  lemma NoChunks(lines: seq<ImportLine>, chunks: seq<seq<string>>, username: string, team: string)
    ensures LoadedBy(lines, 0, username, team) == [] && Flatten(chunks[..0]) == []
  {
    assert |chunks[..0]| == 0;
  }

  lemma NothingLoadedYet(lines: seq<ImportLine>, username: string, team: string)
    requires |lines| == 0
    ensures |Loaded(lines, username, team)| == 0
  {
  }

  lemma {:induction false} LoadedChunks(username: string, name: string, chunks: seq<seq<string>>, n: nat, team: string)
    requires n <= |chunks|
    ensures LoadedBy(ChunkLines(username, name, chunks), n, username, team) == if name == team then Flatten(chunks[..n]) else []
  {
    hide LoadedBy, ChunkLines, Flatten;
    if n == 0 {
      NoChunks(ChunkLines(username, name, chunks), chunks, username, team);
    } else {
      LoadedChunks(username, name, chunks, n - 1, team);
      LoadOneMore(username, name, chunks, n, team);
      FlattenAppend(chunks[..n - 1], chunks[n - 1]);
      assert chunks[..n] == chunks[..n - 1] + [chunks[n - 1]];
    }
  }

  /** All chunks of one team's list: the list itself, and nothing for any other team. */
  lemma LoadedTeam(username: string, name: string, channels: seq<string>, team: string)
    ensures var loaded := Loaded(ChunkLines(username, name, Chunks(channels)), username, team);
            if name == team then loaded == channels else |loaded| == 0
  {
    var chunks := Chunks(channels);
    LoadedChunks(username, name, chunks, |chunks|, team);
    ChunksFacts(channels);
    assert chunks[..|chunks|] == chunks;
  }

  ghost predicate TeamsDistinct(user: User) {
    forall j, k :: 0 <= j < k < |user.teams| ==> user.teams[j].name != user.teams[k].name
  }

  lemma OneMoreTeam(user: User, n: nat)
    requires 0 < n <= |user.teams|
    ensures var team := user.teams[n - 1];
            MemberLines(user, n) == MemberLines(user, n - 1) + ChunkLines(user.username, team.name, Chunks(team.channels))
  {
  }

  lemma NoTeamsYet(user: User, team: string)
    ensures |Loaded(MemberLines(user, 0), user.username, team)| == 0
  {
  }

  lemma {:induction false} LoadedMember(user: User, n: nat, k: nat)
    requires TeamsDistinct(user) && n <= |user.teams| && k < |user.teams|
    ensures var loaded := Loaded(MemberLines(user, n), user.username, user.teams[k].name);
            if k < n then loaded == user.teams[k].channels else |loaded| == 0
    decreases n
  {
    hide Loaded, Chunks, ChunkLines, MemberLines;
    if n == 0 {
      NoTeamsYet(user, user.teams[k].name);
    } else {
      OneMoreTeam(user, n);
      var team, wanted := user.teams[n - 1], user.teams[k].name;
      LoadedMember(user, n - 1, k);
      assert team.name == wanted <==> k == n - 1;
      LoadedTeam(user.username, team.name, team.channels, wanted);
      AddLoaded(MemberLines(user, n - 1), ChunkLines(user.username, team.name, Chunks(team.channels)), user.username, wanted);
    }
  }

  /** Loading two stretches of lines, when at most one of them contributes. */
  lemma AddLoaded(a: seq<ImportLine>, b: seq<ImportLine>, username: string, team: string)
    ensures |Loaded(a, username, team)| == 0 ==> Loaded(a + b, username, team) == Loaded(b, username, team)
    ensures |Loaded(b, username, team)| == 0 ==> Loaded(a + b, username, team) == Loaded(a, username, team)
  {
    LoadedConcat(a, b, |b|, username, team);
  }

  lemma {:induction false} MemberLinesOwn(user: User, n: nat)
    requires n <= |user.teams|
    ensures forall k :: 0 <= k < |MemberLines(user, n)| ==>
              MemberLines(user, n)[k].UserLine? && MemberLines(user, n)[k].username == user.username
    decreases n
  {
    if n > 0 {
      MemberLinesOwn(user, n - 1);
    }
  }

  /** A user's membership lines contribute to nobody else. */
  lemma OthersSilent(user: User, username: string, team: string)
    requires user.username != username
    ensures |Loaded(MemberLines(user, |user.teams|), username, team)| == 0
  {
    var lines := MemberLines(user, |user.teams|);
    MemberLinesOwn(user, |user.teams|);
    NothingLoaded(lines, |lines|, username, team);
  }

  lemma {:induction false} AllOthersSilent(users: seq<User>, n: nat, username: string, team: string)
    requires n <= |users| && forall m :: 0 <= m < n ==> users[m].username != username
    ensures |Loaded(Memberships(users, n), username, team)| == 0
  {
    hide Loaded, MemberLines, LoadedBy;
    if n == 0 {
      NothingLoadedYet(Memberships(users, 0), username, team);
    } else {
      AllOthersSilent(users, n - 1, username, team);
      OthersSilent(users[n - 1], username, team);
      AddLoaded(Memberships(users, n - 1), MemberLines(users[n - 1], |users[n - 1].teams|), username, team);
    }
  }

  lemma {:induction false} LoadedMemberships(users: seq<User>, n: nat, i: nat, username: string, team: string)
    requires i < n <= |users|
    requires forall m :: 0 <= m < n && m != i ==> users[m].username != username
    ensures Loaded(Memberships(users, n), username, team)
            == Loaded(MemberLines(users[i], |users[i].teams|), username, team)
    decreases n
  {
    hide Loaded, MemberLines;
    if i == n - 1 {
      AllOthersSilent(users, n - 1, username, team);
    } else {
      LoadedMemberships(users, n - 1, i, username, team);
      OthersSilent(users[n - 1], username, team);
    }
    AddLoaded(Memberships(users, n - 1), MemberLines(users[n - 1], |users[n - 1].teams|), username, team);
  }

  /**
   Round trip: whoever imports the file in order gives each user, in each of its teams, exactly the channel
   list it was generated with, in order, although the list is spread over many lines.
   */
  lemma FileRoundTrip(w: World, users: seq<User>, i: nat, k: nat)
    requires i < |users| && k < |users[i].teams| && TeamsDistinct(users[i])
    requires forall m :: 0 <= m < |users| && m != i ==> users[m].username != users[i].username
    ensures Loaded(FileLines(w, users), users[i].username, users[i].teams[k].name) == users[i].teams[k].channels
  {
    var username, team := users[i].username, users[i].teams[k].name;
    var header, plain, emoji := HeaderLines(w), PlainLines(users), EmojiLines(w);
    var members, direct := Memberships(users, |users|), DirectLines(w);
    NothingLoaded(header, |header|, username, team);
    PlainLoadsNothing(users, username, team);
    NothingLoaded(emoji, |emoji|, username, team);
    LoadedMemberships(users, |users|, i, username, team);
    LoadedMember(users[i], |users[i].teams|, k);
    NothingLoaded(direct, |direct|, username, team);
    FiveParts(header, plain, emoji, members, direct, username, team);
  }

  /** Only the fourth of five stretches contributes. */
  lemma FiveParts(a: seq<ImportLine>, b: seq<ImportLine>, c: seq<ImportLine>, d: seq<ImportLine>, e: seq<ImportLine>,
                  username: string, team: string)
    requires |Loaded(a, username, team)| == |Loaded(b, username, team)| == |Loaded(c, username, team)| == |Loaded(e, username, team)| == 0
    ensures Loaded(a + b + c + d + e, username, team) == Loaded(d, username, team)
  {
    hide Loaded;
    AddLoaded(a, b, username, team);
    AddLoaded(a + b, c, username, team);
    AddLoaded(a + b + c, d, username, team);
    AddLoaded(a + b + c + d, e, username, team);
  }

  lemma PlainLoadsNothing(users: seq<User>, username: string, team: string)
    ensures |Loaded(PlainLines(users), username, team)| == 0
  {
    var plain := PlainLines(users);
    forall m | 0 <= m < |plain| ensures |LineChannels(plain[m], username, team)| == 0 {
      var entries := Entries(Stripped(users[m]).teams);
      NoChannelsInEntries(entries, |entries|, team);
    }
    NothingLoaded(plain, |plain|, username, team);
  }
}
