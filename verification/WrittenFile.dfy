/**
 The file as the encoder writes it. The encoder runs beside the generator and reads user records that the generator
 changes back, so that a user's plain line may come out with the user's memberships. Here is how the written file
 can differ from the lines as sent, what that means to an importer, and exactly when it cannot happen.
 */
module WrittenFile {
  import opened Membership
  import opened Emission
  import opened BulkFile

  /** A user's line with all its memberships, as written when the Teams are back too early. */
  function FullLine(user: User): ImportLine {
    UserLine(user.username, Entries(user.teams))
  }

  /** The encoded line stands for a line of the file. */
  predicate IsLine(w: World, users: seq<User>, e: Encoder.Encoded) {
    match e
    case OtherLine(id) => id < |FileLines(w, users)|
    case UserLine(u, _) => u < |users|
  }

  /** What an encoded line looks like in the file. */
  function Rendered(w: World, users: seq<User>, e: Encoder.Encoded): ImportLine
    requires IsLine(w, users, e)
  {
    match e
    case OtherLine(id) => FileLines(w, users)[id]
    case UserLine(u, stripped) => if stripped then PlainLine(users[u]) else FullLine(users[u])
  }

  predicate AreLines(w: World, users: seq<User>, output: seq<Encoder.Encoded>) {
    forall k :: 0 <= k < |output| ==> IsLine(w, users, output[k])
  }

  /** The file with these lines. */
  function Written(w: World, users: seq<User>, output: seq<Encoder.Encoded>): seq<ImportLine>
    requires AreLines(w, users, output)
  {
    seq(|output|, k requires 0 <= k < |output| => Rendered(w, users, output[k]))
  }

  /** A way the whole run of generator and encoder can end. */
  ghost predicate Finished(w: World, users: seq<User>, s: Encoder.State) {
    Encoder.Reachable(Program(w, users), s) && s.done
  }

  /** The plain line of user u has been written with the user's memberships. */
  predicate Early(w: World, output: seq<Encoder.Encoded>, u: nat) {
    |HeaderLines(w)| + u < |output| && output[|HeaderLines(w)| + u] == Encoder.UserLine(u, false)
  }

  /** User u's plain line can come out with its memberships: fewer than 101 lines are sent before the Teams are back. */
  predicate AtRisk(w: World, users: seq<User>, u: nat)
    requires u < |users|
  {
    (|users| - 1 - u) + |w.emojis| + |Memberships(users, u)| <= 100
  }

  predicate NoChannels(user: User) {
    forall k :: 0 <= k < |user.teams| ==> user.teams[k].channels == []
  }

  // ---------------------------------------------------------------- the written file, section by section

  /** The users' first lines as written. */
  function WrittenUsers(w: World, users: seq<User>, output: seq<Encoder.Encoded>): seq<ImportLine> {
    seq(|users|, u requires 0 <= u < |users| => if Early(w, output, u) then FullLine(users[u]) else PlainLine(users[u]))
  }

  function Sections(w: World, users: seq<User>, output: seq<Encoder.Encoded>): seq<ImportLine> {
    HeaderLines(w) + WrittenUsers(w, users, output) + EmojiLines(w) + Memberships(users, |users|) + DirectLines(w)
  }

  lemma SectionAt(w: World, users: seq<User>, output: seq<Encoder.Encoded>, k: nat)
    requires k < |FileLines(w, users)|
    ensures |Sections(w, users, output)| == |FileLines(w, users)|
    ensures var u := k - |HeaderLines(w)|;
            if 0 <= u < |users| then
              && FileLines(w, users)[k] == PlainLine(users[u])
              && Sections(w, users, output)[k] == if Early(w, output, u) then FullLine(users[u]) else PlainLine(users[u])
            else Sections(w, users, output)[k] == FileLines(w, users)[k]
  {
    hide HeaderLines, Memberships, PlainLine, FullLine, EmojiLines, DirectLines, Early;
  }

  lemma LineAt(w: World, users: seq<User>, s: Encoder.State, k: nat)
    requires Finished(w, users, s) && k < |s.output|
    ensures |s.output| == |FileLines(w, users)| && IsLine(w, users, s.output[k])
    ensures Rendered(w, users, s.output[k]) == Sections(w, users, s.output)[k]
    ensures 0 <= k - |HeaderLines(w)| < |users| && Early(w, s.output, k - |HeaderLines(w)|) ==> AtRisk(w, users, k - |HeaderLines(w)|)
  {
    hide HeaderLines, Memberships, FileLines, Program, PlainLine, FullLine, Sections, Encoder.Sent, Encoder.Reachable;
    LengthKept(w, users, s);
    SentAt(w, users, k);
    SectionAt(w, users, s.output, k);
    assert Encoder.Source(s.output[k]) == Encoder.Sources(s.output)[k];
    var u := k - |HeaderLines(w)|;
    if 0 <= u < |users| && Early(w, s.output, u) {
      assert Encoder.CanEncode(Program(w, users), k, s.output[k]);
      PlainLineStrippedExactly(w, users, u);
    }
  }

  lemma LengthKept(w: World, users: seq<User>, s: Encoder.State)
    requires Finished(w, users, s)
    ensures |s.output| == |FileLines(w, users)|
    ensures Encoder.Sources(s.output) == Encoder.Sent(Program(w, users), |Program(w, users)|)
  {
    hide Program, FileLines, Encoder.Sent, Encoder.Reachable;
    Encoder.OutputInOrder(Program(w, users), s);
    SentLength(w, users);
  }

  lemma SentLength(w: World, users: seq<User>)
    ensures |Encoder.Sent(Program(w, users), |Program(w, users)|)| == |FileLines(w, users)|
  {
    assert |HeaderLines(w)| >= 1;
    hide Program, HeaderLines, Memberships, Encoder.Sent;
    SentAt(w, users, 0);
  }

  /**
   The concurrent generator refines the sequential one. In every interleaving, once doneChan is closed the file
   has exactly the lines of FileLines in their order, except that the plain line of a user at risk may carry the
   user's memberships already.
   */
  lemma FileComesOut(w: World, users: seq<User>, s: Encoder.State)
    requires Finished(w, users, s)
    ensures AreLines(w, users, s.output) && Written(w, users, s.output) == Sections(w, users, s.output)
    ensures |s.output| == |FileLines(w, users)|
    ensures forall u :: 0 <= u < |users| && Early(w, s.output, u) ==> AtRisk(w, users, u)
  {
    hide HeaderLines, FileLines, Sections, Rendered, Early, AtRisk, Finished, IsLine;
    LengthKept(w, users, s);
    SectionsLength(w, users, s.output);
    forall k | 0 <= k < |s.output|
      ensures IsLine(w, users, s.output[k]) && Rendered(w, users, s.output[k]) == Sections(w, users, s.output)[k]
    {
      LineAt(w, users, s, k);
    }
    forall u | 0 <= u < |users| && Early(w, s.output, u) ensures AtRisk(w, users, u) {
      SomeLength(w, s.output, u);
      LineAt(w, users, s, |HeaderLines(w)| + u);
    }
  }

  lemma SomeLength(w: World, output: seq<Encoder.Encoded>, u: nat)
    requires Early(w, output, u)
    ensures |HeaderLines(w)| + u < |output|
  {
    hide HeaderLines;
  }

  lemma SectionsLength(w: World, users: seq<User>, output: seq<Encoder.Encoded>)
    ensures |Sections(w, users, output)| == |FileLines(w, users)|
  {
    hide HeaderLines, Memberships;
  }

  /** And for every user at risk it does happen in some interleaving. */
  lemma EarlyHappens(w: World, users: seq<User>, u: nat) returns (s: Encoder.State)
    requires u < |users| && AtRisk(w, users, u)
    ensures Finished(w, users, s) && Early(w, s.output, u)
  {
    hide HeaderLines, Memberships, Program, Encoder.Reachable;
    var prog, k := Program(w, users), |HeaderLines(w)| + u;
    PlainLineStrippedExactly(w, users, u);
    var t :| Encoder.Reachable(prog, t) && k < |t.output| && t.output[k] == Encoder.UserLine(u, false);
    s := Encoder.CanFinish(prog, t);
  }

  // ---------------------------------------------------------------- when the file is determined

  lemma FullWithoutChannels(user: User)
    ensures NoChannels(user) <==> FullLine(user) == PlainLine(user)
  {
    if NoChannels(user) {
      assert Entries(user.teams) == Entries(Stripped(user).teams);
    } else {
      var k :| 0 <= k < |user.teams| && user.teams[k].channels != [];
      assert Entries(user.teams)[k] != Entries(Stripped(user).teams)[k];
    }
  }

  /** No user's first line has come out with channels. */
  predicate NoneEarly(w: World, users: seq<User>, output: seq<Encoder.Encoded>) {
    forall u :: 0 <= u < |users| && Early(w, output, u) ==> NoChannels(users[u])
  }

  /** No user at risk has a channel: what a caller can check to know the file. */
  predicate NobodyAtRisk(w: World, users: seq<User>) {
    forall u :: 0 <= u < |users| && AtRisk(w, users, u) ==> NoChannels(users[u])
  }

  lemma AsSentExactly(w: World, users: seq<User>, s: Encoder.State)
    requires Finished(w, users, s)
    ensures AreLines(w, users, s.output)
    ensures Written(w, users, s.output) == FileLines(w, users) <==> NoneEarly(w, users, s.output)
  {
    hide HeaderLines, FileLines, Sections, Finished, AtRisk, PlainLine, FullLine, NoChannels, Written, AreLines, Early;
    FileComesOut(w, users, s);
    var file, written := FileLines(w, users), Sections(w, users, s.output);
    SectionsLength(w, users, s.output);
    if NoneEarly(w, users, s.output) {
      forall k | 0 <= k < |file| ensures written[k] == file[k] {
        SectionAt(w, users, s.output, k);
        var u := k - |HeaderLines(w)|;
        if 0 <= u < |users| && Early(w, s.output, u) {
          FullWithoutChannels(users[u]);
        }
      }
      assert written == file;
    } else {
      var u :| 0 <= u < |users| && Early(w, s.output, u) && !NoChannels(users[u]);
      SomeLength(w, s.output, u);
      SectionAt(w, users, s.output, |HeaderLines(w)| + u);
      FullWithoutChannels(users[u]);
      assert written[|HeaderLines(w)| + u] != file[|HeaderLines(w)| + u];
    }
  }

  /** What holds of every file the generator can write. */
  ghost predicate Always(w: World, users: seq<User>, good: seq<ImportLine> -> bool) {
    forall s: Encoder.State | Finished(w, users, s) && AreLines(w, users, s.output) :: good(Written(w, users, s.output))
  }

  /** What no file keeps in which a user's first line has come out with channels. */
  ghost predicate FailsWhenEarly(w: World, users: seq<User>, good: seq<ImportLine> -> bool) {
    forall s: Encoder.State | Finished(w, users, s) && AreLines(w, users, s.output) && !NoneEarly(w, users, s.output)
      :: !good(Written(w, users, s.output))
  }

  /**
   A property that holds of the lines as sent, and fails whenever a user's first line comes out with channels, holds
   of the file in every interleaving if and only if no user at risk has a channel.
   */
  lemma AlwaysExactly(w: World, users: seq<User>, good: seq<ImportLine> -> bool)
    requires good(FileLines(w, users))
    requires FailsWhenEarly(w, users, good)
    ensures Always(w, users, good) <==> NobodyAtRisk(w, users)
  {
    hide FileLines, Finished, Written, AreLines, Early, AtRisk, NoChannels;
    if NobodyAtRisk(w, users) {
      forall s: Encoder.State | Finished(w, users, s) && AreLines(w, users, s.output) ensures good(Written(w, users, s.output)) {
        FileComesOut(w, users, s);
        AsSentExactly(w, users, s);
      }
    } else {
      var u :| 0 <= u < |users| && AtRisk(w, users, u) && !NoChannels(users[u]);
      var s := EarlyHappens(w, users, u);
      FileComesOut(w, users, s);
      assert !NoneEarly(w, users, s.output);
      assert Finished(w, users, s) && AreLines(w, users, s.output);
    }
  }

  /** The file is the same in every interleaving exactly if no user at risk has a channel; 101 emoji are enough. */
  lemma FileIsDetermined(w: World, users: seq<User>)
    ensures Always(w, users, lines => lines == FileLines(w, users)) <==> NobodyAtRisk(w, users)
    ensures |w.emojis| >= 101 ==> NobodyAtRisk(w, users)
  {
    hide Finished, Written, AreLines, FileLines, Always, NoneEarly, Early;
    forall s: Encoder.State | Finished(w, users, s) && AreLines(w, users, s.output) && !NoneEarly(w, users, s.output)
      ensures Written(w, users, s.output) != FileLines(w, users)
    {
      AsSentExactly(w, users, s);
    }
    AlwaysExactly(w, users, lines => lines == FileLines(w, users));
    hide NoChannels, Memberships;
  }
}
