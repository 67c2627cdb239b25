/**
 The written file as it reaches the server: in segments, each but the first headed by the version line again, up to
 the first one that is refused.
 */
module ChunkedImport {
  import opened Collections
  import opened Membership
  import opened Emission
  import opened EmissionFacts
  import opened WrittenFile
  import opened ImportedFile
  import Chunker
  import Encoder

  predicate Headed(segments: seq<seq<ImportLine>>) {
    forall k :: 0 <= k < |segments| ==> segments[k] != [] && segments[k][0] == VersionLine
  }

  lemma HeaderLoadsNothing(segment: seq<ImportLine>, username: string, team: string)
    requires segment != [] && segment[0] == VersionLine
    ensures Loaded(segment, username, team) == Loaded(segment[1..], username, team)
  {
    assert segment == [VersionLine] + segment[1..];
    Both([VersionLine], segment[1..], username, team);
    NothingLoaded([VersionLine], 1, username, team);
  }

  /** Repeated version lines do not matter. */
  lemma {:induction false} HeadersLoadNothing(segments: seq<seq<ImportLine>>, username: string, team: string)
    requires Headed(segments)
    ensures Loaded(Flatten(segments), username, team) == Loaded(Flatten(Chunker.Tails(segments)), username, team)
    decreases |segments|
  {
    hide Loaded;
    if |segments| > 0 {
      var tails := Chunker.Tails(segments);
      HeadersLoadNothing(segments[1..], username, team);
      assert tails[1..] == Chunker.Tails(segments[1..]) && tails[0] == segments[0][1..];
      HeaderLoadsNothing(segments[0], username, team);
      Both(segments[0], Flatten(segments[1..]), username, team);
      Both(tails[0], Flatten(tails[1..]), username, team);
    } else {
      assert Chunker.Tails(segments) == [];
    }
  }

  lemma PayloadLoads(segments: seq<seq<ImportLine>>, username: string, team: string)
    requires Headed(segments)
    ensures Loaded(Flatten(segments), username, team) == Loaded(Chunker.Payload(segments), username, team)
  {
    hide Loaded;
    if |segments| > 0 {
      HeadersLoadNothing(segments[1..], username, team);
      Both(segments[0], Flatten(segments[1..]), username, team);
      Both(segments[0], Flatten(Chunker.Tails(segments[1..])), username, team);
    } else {
      assert Flatten(segments) == Chunker.Payload(segments);
    }
  }

  /**
   Importing the first k segments of any file that starts with its version line loads exactly what the first
   1000 k - 1 lines of the file load, or all of them.
   */
  lemma SegmentsLoad(lines: seq<ImportLine>, k: nat, username: string, team: string)
    requires lines != [] && lines[0] == VersionLine && k <= |Chunker.AllSegments(lines)|
    ensures Chunker.Carried(|lines|, k) <= |lines|
    ensures Loaded(Flatten(Chunker.AllSegments(lines)[..k]), username, team)
            == Loaded(lines[..Chunker.Carried(|lines|, k)], username, team)
  {
    hide Chunker.AllSegments, Chunker.Payload, Flatten, Loaded;
    Chunker.SegmentsCorrect(lines);
    Chunker.CarriedExactly(lines, k);
    PayloadLoads(Chunker.AllSegments(lines)[..k], username, team);
  }

  lemma StartsWithVersion(w: World, users: seq<User>, output: seq<Encoder.Encoded>)
    ensures |Sections(w, users, output)| > 0 && Sections(w, users, output)[0] == VersionLine
  {
    assert HeaderLines(w)[0] == VersionLine;
    hide HeaderLines, Memberships, EmojiLines, DirectLines, WrittenUsers;
  }

  /** What the server has accepted: everything before the refused segment, or everything. */
  function Accepted(sent: seq<seq<ImportLine>>, ok: bool): seq<seq<ImportLine>>
    requires |sent| > 0
  {
    if ok then sent else sent[..|sent| - 1]
  }

  /**
   From the generator to the server, in every interleaving and for every answer of the server. When the segment after
   k accepted ones is refused, a user has, in each of its teams, what the first 1000 k - 1 lines of the written file
   give it; when none is refused, exactly its channels: the list once, or twice if its first line came out early.
   */
  lemma ServerHas(w: World, users: seq<User>, s: Encoder.State, sent: seq<seq<ImportLine>>, ok: bool, i: nat, k: nat)
    requires Finished(w, users, s) && UsernamesDistinct(users)
    requires i < |users| && k < |users[i].teams| && TeamsDistinct(users[i])
    requires AreLines(w, users, s.output)
    requires var file := Written(w, users, s.output);
             && |sent| > 0 && sent <= Chunker.AllSegments(file) && (ok ==> sent == Chunker.AllSegments(file))
    ensures var file, user, accepted := Written(w, users, s.output), users[i], Accepted(sent, ok);
            var n := if ok then |file| else if |accepted| == 0 then 0 else 1000 * |accepted| - 1;
            var loaded := Loaded(Flatten(accepted), user.username, user.teams[k].name);
            && n <= |file| && loaded == Loaded(file[..n], user.username, user.teams[k].name)
            && (ok ==> loaded == (if Early(w, s.output, i) then user.teams[k].channels else []) + user.teams[k].channels)
  {
    hide Finished, Written, Sections, Loaded, Flatten, Early, UsernamesDistinct, TeamsDistinct, Chunker.AllSegments, AreLines;
    FileComesOut(w, users, s);
    StartsWithVersion(w, users, s.output);
    var file := Written(w, users, s.output);
    var accepted := Accepted(sent, ok);
    assert accepted == Chunker.AllSegments(file)[..|accepted|];
    SegmentsLoad(file, |accepted|, users[i].username, users[i].teams[k].name);
    WrittenLoads(w, users, s, i, k);
    Chunker.CarriedExactly(file, |accepted|);
    if ok {
      assert file[..|file|] == file;
    }
  }
}
