/**
 The line stream of the import file: schemes, teams, channels, every user without channels, emoji, and then
 the channel memberships again, cut into lines of at most 100 channels because the server limits line length.
 */
module Emission {
  import opened Collections
  import opened Membership

  const CHUNK := 100

  datatype TeamEntry = TeamEntry(name: string, channels: seq<string>)

  datatype ImportLine =
    | VersionLine
    | SchemeLine(name: string)
    | TeamLine(team: Team)
    | ChannelLine(channel: Channel)
    | UserLine(username: string, entries: seq<TeamEntry>)
    | EmojiLine(name: string)
    | DirectLine(members: seq<string>)

  datatype World = World(teamSchemes: seq<string>, channelSchemes: seq<string>, teams: seq<Team>,
                         channels: seq<Channel>, emojis: seq<string>, direct: seq<seq<string>>)

  // ---------------------------------------------------------------- cutting a channel list

  function Chunks(channels: seq<string>): seq<seq<string>>
    decreases |channels|
  {
    if channels == [] then []
    else if |channels| <= CHUNK then [channels]
    else [channels[..CHUNK]] + Chunks(channels[CHUNK..])
  }

  /** The chunks are never empty, never above 100, full except for the last, and give the list back. */
  lemma {:induction false} ChunksFacts(channels: seq<string>)
    ensures Flatten(Chunks(channels)) == channels
    ensures forall k :: 0 <= k < |Chunks(channels)| ==> 0 < |Chunks(channels)[k]| <= 100
    ensures forall k :: 0 <= k < |Chunks(channels)| - 1 ==> |Chunks(channels)[k]| == 100
    ensures |Chunks(channels)| == (|channels| + 99) / 100
    decreases |channels|
  {
    if |channels| > CHUNK {
      ChunksFacts(channels[CHUNK..]);
      assert channels == channels[..CHUNK] + channels[CHUNK..];
    }
  }

  function ChunkLine(username: string, team: string, chunk: seq<string>): ImportLine {
    UserLine(username, [TeamEntry(team, chunk)])
  }

  /** The lines for the first m chunks. */
  function ChunkLines(username: string, team: string, chunks: seq<seq<string>>): (r: seq<ImportLine>)
    ensures |r| == |chunks|
  {
    seq(|chunks|, m requires 0 <= m < |chunks| => ChunkLine(username, team, chunks[m]))
  }

  /** The membership lines of the first n teams of a user. */
  function MemberLines(user: User, n: nat): seq<ImportLine>
    requires n <= |user.teams|
  {
    if n == 0 then []
    else MemberLines(user, n - 1)
         + ChunkLines(user.username, user.teams[n - 1].name, Chunks(user.teams[n - 1].channels))
  }

  /** What the slices sent with the lines hold. */
  function Contents(slices: seq<array<string>>): seq<seq<string>>
    reads slices
  {
    seq(|slices|, m requires 0 <= m < |slices| reads slices => slices[m][..])
  }

  /** copy(teamChannels, channels): a slice of its own. */
  method Copied(buffer: array<string>, n: nat) returns (slice: array<string>)
    requires n <= buffer.Length
    ensures fresh(slice) && slice[..] == buffer[..n]
  {
    slice := new string[n];
    for k := 0 to n
      invariant slice[..k] == buffer[..k]
    {
      slice[k] := buffer[k];
    }
  }

  /** A line with a copy of the buffer is sent after the others. */
  method SendCopy(slices: seq<array<string>>, buffer: array<string>, n: nat) returns (more: seq<array<string>>)
    requires n <= buffer.Length
    ensures |more| == |slices| + 1 && more[..|slices|] == slices && fresh(more[|slices|])
    ensures Contents(more) == Contents(slices) + [buffer[..n]]
  {
    var slice := Copied(buffer, n);
    more := slices + [slice];
  }

  /** One channel more, in terms of the chunks made so far and those still to come. */
  lemma NextChannel(sent: seq<seq<string>>, before: seq<string>, channels: seq<string>, n: nat, all: seq<seq<string>>)
    requires n < |channels| && |before| < CHUNK && sent + Chunks(before + channels[n..]) == all
    ensures var now := before + [channels[n]];
            if |now| >= CHUNK then (sent + [now]) + Chunks([] + channels[n + 1..]) == all
            else sent + Chunks(now + channels[n + 1..]) == all
  {
    hide Chunks;
    var now, rest := before + [channels[n]], channels[n + 1..];
    assert before + channels[n..] == now + rest;
    if |now| >= CHUNK {
      FullChunk(now, rest);
      ConcatAssociative(sent, [now], Chunks(rest));
      assert [] + rest == rest;
    }
  }

  lemma LastChannel(sent: seq<seq<string>>, before: seq<string>, channels: seq<string>, all: seq<seq<string>>)
    requires |before| < CHUNK && sent + Chunks(before + channels[|channels|..]) == all
    ensures (if |before| > 0 then sent + [before] else sent) == all
  {
    assert before + channels[|channels|..] == before;
    ShortList(before);
    hide Chunks;
  }

  /**
   The loop over one team's channels. One buffer is filled again and again; every line is sent with a copy of it,
   so that at the end each slice still holds its own chunk.
   */
  method SendTeamChannels(team: UserTeam) returns (slices: seq<array<string>>)
    ensures fresh(slices) && Contents(slices) == Chunks(team.channels)
  {
    hide Chunks, Contents;
    ghost var all := Chunks(team.channels);
    slices := [];
    var buffer := new string[CHUNK];
    var size := 0;
    NothingSent(buffer[..0], team.channels);
    for n := 0 to |team.channels|
      invariant size < CHUNK && fresh(slices) && buffer !in slices
      invariant Contents(slices) + Chunks(buffer[..size] + team.channels[n..]) == all
    {
      NextChannel(Contents(slices), buffer[..size], team.channels, n, all);
      ghost var now := buffer[..size] + [team.channels[n]];
      buffer[size] := team.channels[n];
      size := size + 1;
      assert buffer[..size] == now;
      if size >= CHUNK {
        slices := SendCopy(slices, buffer, size);
        size := 0;
        assert buffer[..0] == [];
      }
    }
    LastChannel(Contents(slices), buffer[..size], team.channels, all);
    if size > 0 {
      slices := SendCopy(slices, buffer, size);
    }
  }

  lemma NothingSent(none: seq<string>, channels: seq<string>)
    requires |none| == 0
    ensures Contents([]) + Chunks(none + channels[0..]) == Chunks(channels)
  {
    hide Chunks;
    assert none + channels[0..] == channels;
  }

  lemma ShortList(buffer: seq<string>)
    requires |buffer| < CHUNK
    ensures Chunks(buffer) == if |buffer| > 0 then [buffer] else []
  {
  }

  /** A full buffer is the first chunk of whatever is still pending. */
  lemma FullChunk(buffer: seq<string>, rest: seq<string>)
    requires |buffer| == CHUNK
    ensures Chunks(buffer + rest) == [buffer] + Chunks(rest)
  {
    var pending := buffer + rest;
    assert pending[..CHUNK] == buffer && pending[CHUNK..] == rest;
    if |rest| == 0 {
      assert pending == buffer;
    }
  }

  // ---------------------------------------------------------------- the whole stream

  function Stripped(user: User): User {
    user.(teams := seq(|user.teams|, k requires 0 <= k < |user.teams| => UserTeam(user.teams[k].name, [], [])))
  }

  function Entries(teams: seq<UserTeam>): seq<TeamEntry> {
    seq(|teams|, k requires 0 <= k < |teams| => TeamEntry(teams[k].name, teams[k].channels))
  }

  function PlainLine(user: User): ImportLine {
    UserLine(user.username, Entries(Stripped(user).teams))
  }

  function HeaderLines(w: World): seq<ImportLine> {
    [VersionLine]
    + seq(|w.teamSchemes|, i requires 0 <= i < |w.teamSchemes| => SchemeLine(w.teamSchemes[i]))
    + seq(|w.channelSchemes|, i requires 0 <= i < |w.channelSchemes| => SchemeLine(w.channelSchemes[i]))
    + seq(|w.teams|, i requires 0 <= i < |w.teams| => TeamLine(w.teams[i]))
    + seq(|w.channels|, i requires 0 <= i < |w.channels| => ChannelLine(w.channels[i]))
  }

  function PlainLines(users: seq<User>): seq<ImportLine> {
    seq(|users|, i requires 0 <= i < |users| => PlainLine(users[i]))
  }

  function EmojiLines(w: World): seq<ImportLine> {
    seq(|w.emojis|, i requires 0 <= i < |w.emojis| => EmojiLine(w.emojis[i]))
  }

  /** The membership lines of the first n users. */
  function Memberships(users: seq<User>, n: nat): seq<ImportLine>
    requires n <= |users|
  {
    if n == 0 then [] else Memberships(users, n - 1) + MemberLines(users[n - 1], |users[n - 1].teams|)
  }

  function DirectLines(w: World): seq<ImportLine> {
    seq(|w.direct|, i requires 0 <= i < |w.direct| => DirectLine(w.direct[i]))
  }

  function FileLines(w: World, users: seq<User>): seq<ImportLine> {
    HeaderLines(w) + PlainLines(users) + EmojiLines(w) + Memberships(users, |users|) + DirectLines(w)
  }

  method SendHeader(w: World) returns (lines: seq<ImportLine>)
    ensures lines == HeaderLines(w)
  {
    lines := [VersionLine];
    ghost var start := lines;
    for i := 0 to |w.teamSchemes|
      invariant lines == start + seq(i, k requires 0 <= k < i => SchemeLine(w.teamSchemes[k]))
    {
      lines := lines + [SchemeLine(w.teamSchemes[i])];
    }
    start := lines;
    for i := 0 to |w.channelSchemes|
      invariant lines == start + seq(i, k requires 0 <= k < i => SchemeLine(w.channelSchemes[k]))
    {
      lines := lines + [SchemeLine(w.channelSchemes[i])];
    }
    start := lines;
    for i := 0 to |w.teams|
      invariant lines == start + seq(i, k requires 0 <= k < i => TeamLine(w.teams[k]))
    {
      lines := lines + [TeamLine(w.teams[i])];
    }
    start := lines;
    for i := 0 to |w.channels|
      invariant lines == start + seq(i, k requires 0 <= k < i => ChannelLine(w.channels[k]))
    {
      lines := lines + [ChannelLine(w.channels[i])];
    }
  }

  /** The first pass over the users: set the teams aside, strip the record, send it. */
  method SendPlainUsers(users: array<User>) returns (lines: seq<ImportLine>, usersTeams: seq<seq<UserTeam>>)
    modifies users
    ensures lines == PlainLines(old(users[..]))
    ensures |usersTeams| == users.Length
    ensures forall i :: 0 <= i < users.Length ==>
      users[i] == Stripped(old(users[i])) && usersTeams[i] == old(users[i]).teams
  {
    lines, usersTeams := [], [];
    for i := 0 to users.Length
      invariant |usersTeams| == |lines| == i
      invariant forall k :: 0 <= k < i ==>
        lines[k] == PlainLine(old(users[k])) && users[k] == Stripped(old(users[k])) && usersTeams[k] == old(users[k]).teams
      invariant forall k :: i <= k < users.Length ==> users[k] == old(users[k])
    {
      var user := users[i];
      usersTeams := usersTeams + [user.teams];
      users[i] := user.(teams := []);
      for k := 0 to |user.teams|
        invariant users[i] == user.(teams := Stripped(user).teams[..k])
        invariant forall j :: 0 <= j < users.Length && j != i ==> users[j] == if j < i then Stripped(old(users[j])) else old(users[j])
      {
        users[i] := users[i].(teams := users[i].teams + [UserTeam(user.teams[k].name, [], [])]);
      }
      assert Stripped(user).teams[..|user.teams|] == Stripped(user).teams;
      lines := lines + [UserLine(users[i].username, Entries(users[i].teams))];
    }
  }

  lemma StrippedRestored(user: User)
    ensures Stripped(user).(teams := user.teams) == user
  {
  }

  /** The second pass: put the teams back and send the memberships team by team. */
  method SendMemberships(users: array<User>, usersTeams: seq<seq<UserTeam>>, ghost before: seq<User>) returns (lines: seq<ImportLine>)
    requires |usersTeams| == |before| == users.Length
    requires forall i :: 0 <= i < users.Length ==> users[i] == Stripped(before[i]) && usersTeams[i] == before[i].teams
    modifies users
    ensures users[..] == before
    ensures lines == Memberships(before, |before|)
  {
    hide Stripped, Chunks, ChunkLines;
    lines := [];
    for i := 0 to users.Length
      invariant lines == Memberships(before, i)
      invariant forall k :: 0 <= k < users.Length ==> users[k] == if k < i then before[k] else Stripped(before[k])
    {
      StrippedRestored(before[i]);
      users[i] := users[i].(teams := usersTeams[i]);
      ghost var start := lines;
      for k := 0 to |users[i].teams|
        invariant users[i] == before[i]
        invariant forall j :: 0 <= j < users.Length && j != i ==> users[j] == if j < i then before[j] else Stripped(before[j])
        invariant lines == start + MemberLines(before[i], k)
      {
        var slices := SendTeamChannels(users[i].teams[k]);
        lines := lines + ChunkLines(users[i].username, users[i].teams[k].name, Contents(slices));
      }
    }
  }

  /** The file as sent; the user records end exactly as they began. */
  method SendFile(w: World, users: array<User>) returns (lines: seq<ImportLine>)
    modifies users
    ensures lines == FileLines(w, old(users[..]))
    ensures users[..] == old(users[..])
  {
    ghost var before := users[..];
    var header := SendHeader(w);
    var plain, usersTeams := SendPlainUsers(users);
    lines := header + plain;
    ghost var start := lines;
    for i := 0 to |w.emojis|
      invariant lines == start + seq(i, k requires 0 <= k < i => EmojiLine(w.emojis[k]))
      invariant forall i :: 0 <= i < users.Length ==> users[i] == Stripped(before[i])
    {
      lines := lines + [EmojiLine(w.emojis[i])];
    }
    var memberships := SendMemberships(users, usersTeams, before);
    lines := lines + memberships;
    start := lines;
    for i := 0 to |w.direct|
      invariant lines == start + seq(i, k requires 0 <= k < i => DirectLine(w.direct[k]))
      invariant users[..] == before
    {
      lines := lines + [DirectLine(w.direct[i])];
    }
  }
}
