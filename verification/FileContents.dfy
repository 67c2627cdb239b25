/**
 What the import file says, read back line by line: its schemes, teams, channels, emoji, direct channels and users are
 the lists it was made of, in order and in every interleaving of generator and encoder. And how long its lines get.
 */
module FileContents {
  import opened Collections
  import opened Membership
  import opened Emission
  import opened BulkFile
  import opened WrittenFile
  import EmissionFacts

  // ---------------------------------------------------------------- readers

  /** What a reader finds in the lines, in order. */
  function Collect<T>(lines: seq<ImportLine>, read: ImportLine -> Option<T>): seq<T> {
    if |lines| == 0 then []
    else
      Collect(lines[..|lines| - 1], read)
      + match read(lines[|lines| - 1]) { case Some(x) => [x] case None => [] }
  }

  function SchemeIn(line: ImportLine): Option<string> {
    if line.SchemeLine? then Some(line.name) else None
  }

  function TeamIn(line: ImportLine): Option<Team> {
    if line.TeamLine? then Some(line.team) else None
  }

  function ChannelIn(line: ImportLine): Option<Channel> {
    if line.ChannelLine? then Some(line.channel) else None
  }

  function EmojiIn(line: ImportLine): Option<string> {
    if line.EmojiLine? then Some(line.name) else None
  }

  function DirectIn(line: ImportLine): Option<seq<string>> {
    if line.DirectLine? then Some(line.members) else None
  }

  lemma {:induction false} CollectConcat<T>(a: seq<ImportLine>, b: seq<ImportLine>, read: ImportLine -> Option<T>)
    ensures Collect(a + b, read) == Collect(a, read) + Collect(b, read)
    decreases |b|
  {
    if |b| == 0 {
      assert a + b == a;
    } else {
      CollectConcat(a, b[..|b| - 1], read);
      assert (a + b)[..|a + b| - 1] == a + b[..|b| - 1];
    }
  }

  /** Lines that each hold one value give these values. */
  lemma {:induction false} CollectAll<T>(lines: seq<ImportLine>, read: ImportLine -> Option<T>, xs: seq<T>)
    requires |lines| == |xs| && forall k :: 0 <= k < |lines| ==> read(lines[k]) == Some(xs[k])
    ensures Collect(lines, read) == xs
    decreases |lines|
  {
    if |lines| > 0 {
      CollectAll(lines[..|lines| - 1], read, xs[..|xs| - 1]);
      assert xs == xs[..|xs| - 1] + [xs[|xs| - 1]];
    }
  }

  lemma {:induction false} CollectNone<T>(lines: seq<ImportLine>, read: ImportLine -> Option<T>)
    requires forall k :: 0 <= k < |lines| ==> read(lines[k]) == None
    ensures |Collect(lines, read)| == 0
    decreases |lines|
  {
    if |lines| > 0 {
      CollectNone(lines[..|lines| - 1], read);
    }
  }

  lemma CollectFive<T>(a: seq<ImportLine>, b: seq<ImportLine>, c: seq<ImportLine>, d: seq<ImportLine>, e: seq<ImportLine>,
                       read: ImportLine -> Option<T>)
    ensures Collect(a + b + c + d + e, read)
            == Collect(a, read) + Collect(b, read) + Collect(c, read) + Collect(d, read) + Collect(e, read)
  {
    hide Collect;
    CollectConcat(a, b, read);
    CollectConcat(a + b, c, read);
    CollectConcat(a + b + c, d, read);
    CollectConcat(a + b + c + d, e, read);
  }

  /** Four empty stretches around another add nothing. */
  lemma OnlyOne<T>(a: seq<T>, b: seq<T>, c: seq<T>, d: seq<T>, e: seq<T>)
    ensures |a| == |c| == |d| == |e| == 0 ==> a + b + c + d + e == b
    ensures |a| == |b| == |d| == |e| == 0 ==> a + b + c + d + e == c
    ensures |a| == |b| == |c| == |d| == 0 ==> a + b + c + d + e == e
  {
  }

  // ---------------------------------------------------------------- the header

  function SchemeLines(names: seq<string>): seq<ImportLine> {
    seq(|names|, i requires 0 <= i < |names| => SchemeLine(names[i]))
  }

  function TeamLines(teams: seq<Team>): seq<ImportLine> {
    seq(|teams|, i requires 0 <= i < |teams| => TeamLine(teams[i]))
  }

  function ChannelLines(channels: seq<Channel>): seq<ImportLine> {
    seq(|channels|, i requires 0 <= i < |channels| => ChannelLine(channels[i]))
  }

  lemma HeaderParts<T>(w: World, read: ImportLine -> Option<T>)
    requires read(VersionLine) == None
    ensures Collect(HeaderLines(w), read)
            == Collect(SchemeLines(w.teamSchemes), read) + Collect(SchemeLines(w.channelSchemes), read)
               + Collect(TeamLines(w.teams), read) + Collect(ChannelLines(w.channels), read)
  {
    assert HeaderLines(w) == [VersionLine] + SchemeLines(w.teamSchemes) + SchemeLines(w.channelSchemes)
                             + TeamLines(w.teams) + ChannelLines(w.channels);
    CollectNone([VersionLine], read);
    hide HeaderLines, Collect;
    CollectFive([VersionLine], SchemeLines(w.teamSchemes), SchemeLines(w.channelSchemes),
                TeamLines(w.teams), ChannelLines(w.channels), read);
  }

  lemma HeaderSchemes(w: World)
    ensures Collect(HeaderLines(w), SchemeIn) == w.teamSchemes + w.channelSchemes
  {
    hide HeaderLines;
    HeaderParts(w, SchemeIn);
    CollectAll(SchemeLines(w.teamSchemes), SchemeIn, w.teamSchemes);
    CollectAll(SchemeLines(w.channelSchemes), SchemeIn, w.channelSchemes);
    CollectNone(TeamLines(w.teams), SchemeIn);
    CollectNone(ChannelLines(w.channels), SchemeIn);
  }

  lemma HeaderTeams(w: World)
    ensures Collect(HeaderLines(w), TeamIn) == w.teams
  {
    hide HeaderLines;
    HeaderParts(w, TeamIn);
    CollectNone(SchemeLines(w.teamSchemes), TeamIn);
    CollectNone(SchemeLines(w.channelSchemes), TeamIn);
    CollectAll(TeamLines(w.teams), TeamIn, w.teams);
    CollectNone(ChannelLines(w.channels), TeamIn);
  }

  lemma HeaderChannels(w: World)
    ensures Collect(HeaderLines(w), ChannelIn) == w.channels
  {
    hide HeaderLines;
    HeaderParts(w, ChannelIn);
    CollectNone(SchemeLines(w.teamSchemes), ChannelIn);
    CollectNone(SchemeLines(w.channelSchemes), ChannelIn);
    CollectNone(TeamLines(w.teams), ChannelIn);
    CollectAll(ChannelLines(w.channels), ChannelIn, w.channels);
  }

  lemma HeaderNothing<T>(w: World, read: ImportLine -> Option<T>)
    requires forall line: ImportLine :: line.VersionLine? || line.SchemeLine? || line.TeamLine? || line.ChannelLine? ==> read(line) == None
    ensures |Collect(HeaderLines(w), read)| == 0
  {
    CollectNone(HeaderLines(w), read);
  }

  // ---------------------------------------------------------------- all sections

  /** Nothing but the header and the direct channels, the users and the emoji count for a reader. */
  lemma SectionParts<T>(w: World, users: seq<User>, output: seq<Encoder.Encoded>, read: ImportLine -> Option<T>)
    ensures Collect(Sections(w, users, output), read)
            == Collect(HeaderLines(w), read) + Collect(WrittenUsers(w, users, output), read) + Collect(EmojiLines(w), read)
               + Collect(Memberships(users, |users|), read) + Collect(DirectLines(w), read)
  {
    hide HeaderLines, WrittenUsers, EmojiLines, Memberships, DirectLines, Collect;
    CollectFive(HeaderLines(w), WrittenUsers(w, users, output), EmojiLines(w), Memberships(users, |users|), DirectLines(w), read);
  }

  lemma UsersNothing<T>(w: World, users: seq<User>, output: seq<Encoder.Encoded>, read: ImportLine -> Option<T>)
    requires forall line: ImportLine :: line.UserLine? ==> read(line) == None
    ensures |Collect(WrittenUsers(w, users, output), read)| == |Collect(Memberships(users, |users|), read)| == 0
  {
    hide HeaderLines, Memberships, Early;
    MembershipsAreUsers(users, |users|);
    CollectNone(WrittenUsers(w, users, output), read);
    CollectNone(Memberships(users, |users|), read);
  }

  /** The sections give back every list of the world, whatever the encoder made of the users. */
  lemma SectionsReadBack(w: World, users: seq<User>, output: seq<Encoder.Encoded>)
    ensures var lines := Sections(w, users, output);
            && Collect(lines, SchemeIn) == w.teamSchemes + w.channelSchemes
            && Collect(lines, TeamIn) == w.teams
            && Collect(lines, ChannelIn) == w.channels
            && Collect(lines, EmojiIn) == w.emojis
            && Collect(lines, DirectIn) == w.direct
  {
    HeaderReadBack(w, users, output);
    EmojisReadBack(w, users, output);
    DirectReadBack(w, users, output);
  }

  /** What the header holds for a reader is what the file holds, if no later line counts. */
  lemma HeaderAlone<T>(w: World, users: seq<User>, output: seq<Encoder.Encoded>, read: ImportLine -> Option<T>)
    requires forall line: ImportLine :: line.UserLine? || line.EmojiLine? || line.DirectLine? ==> read(line) == None
    ensures Collect(Sections(w, users, output), read) == Collect(HeaderLines(w), read)
  {
    CollectNone(EmojiLines(w), read);
    CollectNone(DirectLines(w), read);
    hide Sections, HeaderLines, WrittenUsers, EmojiLines, Memberships, DirectLines, Collect;
    SectionParts(w, users, output, read);
    UsersNothing(w, users, output, read);
  }

  lemma HeaderReadBack(w: World, users: seq<User>, output: seq<Encoder.Encoded>)
    ensures var lines := Sections(w, users, output);
            && Collect(lines, SchemeIn) == w.teamSchemes + w.channelSchemes
            && Collect(lines, TeamIn) == w.teams
            && Collect(lines, ChannelIn) == w.channels
  {
    hide Sections, HeaderLines, Collect;
    HeaderAlone(w, users, output, SchemeIn);
    HeaderSchemes(w);
    HeaderAlone(w, users, output, TeamIn);
    HeaderTeams(w);
    HeaderAlone(w, users, output, ChannelIn);
    HeaderChannels(w);
  }

  lemma EmojisReadBack(w: World, users: seq<User>, output: seq<Encoder.Encoded>)
    ensures Collect(Sections(w, users, output), EmojiIn) == w.emojis
  {
    CollectAll(EmojiLines(w), EmojiIn, w.emojis);
    CollectNone(DirectLines(w), EmojiIn);
    hide Sections, HeaderLines, WrittenUsers, EmojiLines, Memberships, DirectLines, Collect;
    SectionParts(w, users, output, EmojiIn);
    HeaderNothing(w, EmojiIn);
    UsersNothing(w, users, output, EmojiIn);
    OnlyOne(Collect(HeaderLines(w), EmojiIn), Collect(WrittenUsers(w, users, output), EmojiIn), Collect(EmojiLines(w), EmojiIn),
            Collect(Memberships(users, |users|), EmojiIn), Collect(DirectLines(w), EmojiIn));
  }

  lemma DirectReadBack(w: World, users: seq<User>, output: seq<Encoder.Encoded>)
    ensures Collect(Sections(w, users, output), DirectIn) == w.direct
  {
    CollectNone(EmojiLines(w), DirectIn);
    CollectAll(DirectLines(w), DirectIn, w.direct);
    hide Sections, HeaderLines, WrittenUsers, EmojiLines, Memberships, DirectLines, Collect;
    SectionParts(w, users, output, DirectIn);
    HeaderNothing(w, DirectIn);
    UsersNothing(w, users, output, DirectIn);
    OnlyOne(Collect(HeaderLines(w), DirectIn), Collect(WrittenUsers(w, users, output), DirectIn), Collect(EmojiLines(w), DirectIn),
            Collect(Memberships(users, |users|), DirectIn), Collect(DirectLines(w), DirectIn));
  }

  /** As long as no line has come out, no user's line has come out early. */
  lemma AsSent(w: World, users: seq<User>)
    ensures Sections(w, users, []) == FileLines(w, users)
  {
    hide HeaderLines, EmojiLines, Memberships, DirectLines, PlainLine, FullLine;
    assert WrittenUsers(w, users, []) == PlainLines(users);
  }

  /** Every list of the world can be read back from the lines as sent, with its contents and its order. */
  lemma FileReadBack(w: World, users: seq<User>)
    ensures var lines := FileLines(w, users);
            && Collect(lines, SchemeIn) == w.teamSchemes + w.channelSchemes
            && Collect(lines, TeamIn) == w.teams
            && Collect(lines, ChannelIn) == w.channels
            && Collect(lines, EmojiIn) == w.emojis
            && Collect(lines, DirectIn) == w.direct
  {
    hide FileLines, Sections, Collect;
    SectionsReadBack(w, users, []);
    AsSent(w, users);
  }

  /** And from every file that generator and encoder can write together. */
  lemma WrittenReadBack(w: World, users: seq<User>, s: Encoder.State)
    requires Finished(w, users, s)
    ensures AreLines(w, users, s.output)
    ensures var lines := Written(w, users, s.output);
            && Collect(lines, SchemeIn) == w.teamSchemes + w.channelSchemes
            && Collect(lines, TeamIn) == w.teams
            && Collect(lines, ChannelIn) == w.channels
            && Collect(lines, EmojiIn) == w.emojis
            && Collect(lines, DirectIn) == w.direct
  {
    hide Finished, AreLines, Written, Sections, Collect, Early, AtRisk, FileLines;
    FileComesOut(w, users, s);
    SectionsReadBack(w, users, s.output);
  }

  // ---------------------------------------------------------------- the users' lines

  function EntryNames(entries: seq<TeamEntry>): seq<string> {
    seq(|entries|, k requires 0 <= k < |entries| => entries[k].name)
  }

  function TeamNames(user: User): seq<string> {
    seq(|user.teams|, k requires 0 <= k < |user.teams| => user.teams[k].name)
  }

  /** How many channels the first n entries list. */
  function ChannelsUpTo(entries: seq<TeamEntry>, n: nat): nat
    requires n <= |entries|
  {
    if n == 0 then 0 else ChannelsUpTo(entries, n - 1) + |entries[n - 1].channels|
  }

  /** The length of a line as the server's buffer sees it: how many channels it lists. */
  function Size(line: ImportLine): nat {
    if line.UserLine? then ChannelsUpTo(line.entries, |line.entries|) else 0
  }

  /** A user line that lists no channel: the user and the names of its teams. */
  function PlainIn(line: ImportLine): Option<(string, seq<string>)> {
    if line.UserLine? && Size(line) == 0 then Some((line.username, EntryNames(line.entries))) else None
  }

  lemma {:induction false} NothingUpTo(entries: seq<TeamEntry>, n: nat)
    requires n <= |entries| && forall k :: 0 <= k < |entries| ==> entries[k].channels == []
    ensures ChannelsUpTo(entries, n) == 0
  {
    if n > 0 {
      NothingUpTo(entries, n - 1);
    }
  }

  lemma PlainLineReads(user: User)
    ensures Size(PlainLine(user)) == 0 && PlainIn(PlainLine(user)) == Some((user.username, TeamNames(user)))
  {
    var entries := PlainLine(user).entries;
    NothingUpTo(entries, |entries|);
    assert EntryNames(entries) == TeamNames(user);
  }

  /** Each membership line lists between one and 100 channels, of one team of its user. */
  predicate IsChunkOf(line: ImportLine, user: User) {
    && line.UserLine? && line.username == user.username && |line.entries| == 1
    && 0 < |line.entries[0].channels| <= 100
    && exists t :: 0 <= t < |user.teams| && user.teams[t].name == line.entries[0].name
                   && forall c :: c in line.entries[0].channels ==> c in user.teams[t].channels
  }

  lemma ChunkOf(user: User, t: nat, m: nat)
    requires t < |user.teams| && m < |Chunks(user.teams[t].channels)|
    ensures IsChunkOf(ChunkLine(user.username, user.teams[t].name, Chunks(user.teams[t].channels)[m]), user)
  {
    var team := user.teams[t];
    var chunks := Chunks(team.channels);
    ChunksFacts(team.channels);
    forall c | c in chunks[m] ensures c in team.channels {
      EmissionFacts.FlattenMember(chunks, m, c);
    }
  }

  lemma {:induction false} MemberLinesAreChunks(user: User, n: nat)
    requires n <= |user.teams|
    ensures forall k :: 0 <= k < |MemberLines(user, n)| ==> IsChunkOf(MemberLines(user, n)[k], user)
    decreases n
  {
    hide IsChunkOf, ChunkLine, Chunks;
    if n > 0 {
      MemberLinesAreChunks(user, n - 1);
      var before, team := MemberLines(user, n - 1), user.teams[n - 1];
      var chunks := Chunks(team.channels);
      forall k | 0 <= k < |MemberLines(user, n)| ensures IsChunkOf(MemberLines(user, n)[k], user) {
        if k >= |before| {
          ChunkOf(user, n - 1, k - |before|);
          assert MemberLines(user, n)[k] == ChunkLine(user.username, team.name, chunks[k - |before|]);
        } else {
          assert MemberLines(user, n)[k] == before[k];
        }
      }
    }
  }

  /** Every line of the second pass is a chunk of one of the users. */
  lemma {:induction false} MembershipsAreChunks(users: seq<User>, n: nat, k: nat) returns (u: nat)
    requires n <= |users| && k < |Memberships(users, n)|
    ensures u < n && IsChunkOf(Memberships(users, n)[k], users[u])
    decreases n
  {
    hide IsChunkOf, MemberLines;
    var before := Memberships(users, n - 1);
    if k < |before| {
      u := MembershipsAreChunks(users, n - 1, k);
      assert Memberships(users, n)[k] == before[k];
    } else {
      u := n - 1;
      MemberLinesAreChunks(users[u], |users[u].teams|);
      assert Memberships(users, n)[k] == MemberLines(users[u], |users[u].teams|)[k - |before|];
    }
  }

  lemma ChunkSize(line: ImportLine, user: User)
    requires IsChunkOf(line, user)
    ensures 0 < Size(line) <= 100 && PlainIn(line) == None
  {
    assert ChannelsUpTo(line.entries, 1) == ChannelsUpTo(line.entries, 0) + |line.entries[0].channels|;
  }

  lemma PlainPassReads(users: seq<User>)
    ensures Collect(PlainLines(users), PlainIn)
            == seq(|users|, u requires 0 <= u < |users| => (users[u].username, TeamNames(users[u])))
  {
    hide PlainLine, PlainIn, Collect;
    var plain := seq(|users|, u requires 0 <= u < |users| => (users[u].username, TeamNames(users[u])));
    forall u | 0 <= u < |users| ensures PlainIn(PlainLine(users[u])) == Some(plain[u]) {
      PlainLineReads(users[u]);
    }
    CollectAll(PlainLines(users), PlainIn, plain);
  }

  lemma MembershipsReadNothing(users: seq<User>)
    ensures |Collect(Memberships(users, |users|), PlainIn)| == 0
  {
    hide Memberships, PlainIn, Collect, IsChunkOf;
    forall k | 0 <= k < |Memberships(users, |users|)| ensures PlainIn(Memberships(users, |users|)[k]) == None {
      var u := MembershipsAreChunks(users, |users|, k);
      ChunkSize(Memberships(users, |users|)[k], users[u]);
    }
    CollectNone(Memberships(users, |users|), PlainIn);
  }

  /** The lines without channels introduce the users in order, each with the names of all its teams. */
  lemma PlainUsersReadBack(w: World, users: seq<User>)
    ensures Collect(FileLines(w, users), PlainIn)
            == seq(|users|, u requires 0 <= u < |users| => (users[u].username, TeamNames(users[u])))
  {
    CollectNone(EmojiLines(w), PlainIn);
    CollectNone(DirectLines(w), PlainIn);
    hide HeaderLines, PlainLines, EmojiLines, Memberships, DirectLines, PlainIn, Collect;
    PlainPassReads(users);
    MembershipsReadNothing(users);
    HeaderHasNoUsers(w);
    CollectFive(HeaderLines(w), PlainLines(users), EmojiLines(w), Memberships(users, |users|), DirectLines(w), PlainIn);
    OnlyOne(Collect(HeaderLines(w), PlainIn), Collect(PlainLines(users), PlainIn), Collect(EmojiLines(w), PlainIn),
            Collect(Memberships(users, |users|), PlainIn), Collect(DirectLines(w), PlainIn));
  }

  lemma HeaderHasNoUsers(w: World)
    ensures |Collect(HeaderLines(w), PlainIn)| == 0
    ensures |HeaderLines(w)| == 1 + |w.teamSchemes| + |w.channelSchemes| + |w.teams| + |w.channels|
  {
    HeaderNothing(w, PlainIn);
  }

  /**
   User u's first line in any written file: it names the user and all its teams in order, and lists either no channel
   or, if the Teams were back too early, all the user's channels.
   */
  lemma FirstLineExactly(w: World, users: seq<User>, s: Encoder.State, u: nat)
    requires Finished(w, users, s) && u < |users|
    ensures AreLines(w, users, s.output)
    ensures var at := 1 + |w.teamSchemes| + |w.channelSchemes| + |w.teams| + |w.channels| + u;
            && at < |Written(w, users, s.output)|
            && var line := Written(w, users, s.output)[at];
            && line.UserLine? && line.username == users[u].username && EntryNames(line.entries) == TeamNames(users[u])
            && (s.output[at] == Encoder.UserLine(u, true) || s.output[at] == Encoder.UserLine(u, false))
            && forall k :: 0 <= k < |users[u].teams| ==>
                 line.entries[k].channels == if s.output[at] == Encoder.UserLine(u, true) then [] else users[u].teams[k].channels
  {
    hide HeaderLines, Finished, AreLines, Written, PlainLine, FullLine, EntryNames, TeamNames;
    HeaderHasNoUsers(w);
    FirstLineWritten(w, users, s, u);
    FirstLineShapes(users[u]);
  }

  lemma FirstLineShapes(user: User)
    ensures forall line :: line == PlainLine(user) || line == FullLine(user) ==>
              && line.UserLine? && line.username == user.username && EntryNames(line.entries) == TeamNames(user)
              && |line.entries| == |user.teams|
    ensures forall k :: 0 <= k < |user.teams| ==>
              PlainLine(user).entries[k].channels == [] && FullLine(user).entries[k].channels == user.teams[k].channels
  {
    assert EntryNames(Entries(user.teams)) == TeamNames(user);
    assert EntryNames(Entries(Stripped(user).teams)) == TeamNames(user);
  }

  lemma FirstLineWritten(w: World, users: seq<User>, s: Encoder.State, u: nat)
    requires Finished(w, users, s) && u < |users|
    ensures AreLines(w, users, s.output)
    ensures var at := |HeaderLines(w)| + u;
            && at < |Written(w, users, s.output)|
            && (s.output[at] == Encoder.UserLine(u, true) || s.output[at] == Encoder.UserLine(u, false))
            && Written(w, users, s.output)[at] ==
               if s.output[at] == Encoder.UserLine(u, true) then PlainLine(users[u]) else FullLine(users[u])
  {
    hide HeaderLines, FileLines, Memberships, EmojiLines, DirectLines, Finished, PlainLine, FullLine, Program, Encoder.Sent;
    var at := |HeaderLines(w)| + u;
    FileComesOut(w, users, s);
    UserFits(w, users, u);
    SentAt(w, users, at);
    LengthKept(w, users, s);
    assert Encoder.Source(s.output[at]) == Encoder.Sources(s.output)[at] == Encoder.Shared(u);
  }

  lemma UserFits(w: World, users: seq<User>, u: nat)
    requires u < |users|
    ensures |HeaderLines(w)| + u < |FileLines(w, users)|
  {
    hide HeaderLines, Memberships;
  }

  // ---------------------------------------------------------------- how long the lines get

  /** No line lists more than 100 channels, which is what the server's line buffer takes. */
  predicate AllShort(lines: seq<ImportLine>) {
    forall k :: 0 <= k < |lines| ==> Size(lines[k]) <= 100
  }

  function ChannelTotal(user: User): nat { Size(FullLine(user)) }

  lemma NotUsersShort(w: World, users: seq<User>)
    ensures AllShort(HeaderLines(w)) && AllShort(EmojiLines(w)) && AllShort(DirectLines(w))
    ensures AllShort(Memberships(users, |users|))
  {
    hide Memberships, IsChunkOf;
    forall k | 0 <= k < |Memberships(users, |users|)| ensures Size(Memberships(users, |users|)[k]) <= 100 {
      var u := MembershipsAreChunks(users, |users|, k);
      ChunkSize(Memberships(users, |users|)[k], users[u]);
    }
  }

  lemma SectionsShort(w: World, users: seq<User>, output: seq<Encoder.Encoded>)
    ensures AllShort(Sections(w, users, output)) <==>
              forall u :: 0 <= u < |users| && Early(w, output, u) ==> ChannelTotal(users[u]) <= 100
  {
    NotUsersShort(w, users);
    hide HeaderLines, EmojiLines, DirectLines, Memberships, Early, PlainLine, FullLine, Size;
    var header, first := HeaderLines(w), WrittenUsers(w, users, output);
    forall u | 0 <= u < |users| ensures Size(first[u]) <= 100 <==> (Early(w, output, u) ==> ChannelTotal(users[u]) <= 100) {
      PlainLineReads(users[u]);
    }
    assert forall u :: 0 <= u < |users| ==> Sections(w, users, output)[|header| + u] == first[u];
    hide WrittenUsers;
    AllShortConcat(header, first);
    AllShortConcat(header + first, EmojiLines(w));
    AllShortConcat(header + first + EmojiLines(w), Memberships(users, |users|));
    AllShortConcat(header + first + EmojiLines(w) + Memberships(users, |users|), DirectLines(w));
  }

  lemma AllShortConcat(a: seq<ImportLine>, b: seq<ImportLine>)
    ensures AllShort(a + b) <==> AllShort(a) && AllShort(b)
  {
    hide Size;
    forall k | 0 <= k < |a| ensures (a + b)[k] == a[k] {
    }
    forall k | 0 <= k < |b| ensures (a + b)[|a| + k] == b[k] {
    }
  }

  /** The lines as sent are all short: that is what the chunks are for. */
  lemma SentLinesShort(w: World, users: seq<User>)
    ensures AllShort(FileLines(w, users))
  {
    hide FileLines, Sections, AllShort, ChannelTotal;
    SectionsShort(w, users, []);
    AsSent(w, users);
  }

  /**
   The lines of the written file stay short in every interleaving if and only if no user at risk has more than 100
   channels in all its teams: such a user's first line can come out with all of them.
   */
  lemma ShortExactly(w: World, users: seq<User>)
    ensures Always(w, users, AllShort) <==>
              forall u :: 0 <= u < |users| && AtRisk(w, users, u) ==> ChannelTotal(users[u]) <= 100
  {
    hide Finished, AreLines, Written, Sections, Early, AtRisk, AllShort, ChannelTotal, FileLines;
    if forall u :: 0 <= u < |users| && AtRisk(w, users, u) ==> ChannelTotal(users[u]) <= 100 {
      forall s: Encoder.State | Finished(w, users, s) && AreLines(w, users, s.output)
        ensures AllShort(Written(w, users, s.output))
      {
        FileComesOut(w, users, s);
        SectionsShort(w, users, s.output);
      }
    } else {
      var u :| 0 <= u < |users| && AtRisk(w, users, u) && ChannelTotal(users[u]) > 100;
      var s := EarlyHappens(w, users, u);
      FileComesOut(w, users, s);
      SectionsShort(w, users, s.output);
      assert Finished(w, users, s) && AreLines(w, users, s.output);
    }
  }
}
