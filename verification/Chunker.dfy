/**
 SetupServer's re-chunking of the import file: the server is fed segments of about 1000 lines, each of which
 must start with the file's version line, and any of which may be refused.
 */
module Chunker {
  import opened Collections

  const SEGMENT := 1000

  /**
   The segments of the rest of the file: the first goes on from `chunk`, and the others are headed by the version
   line; `line` is the source's line counter.
   */
  function Segments<Line>(version: Line, chunk: seq<Line>, rest: seq<Line>, line: nat): seq<seq<Line>>
    decreases |rest|
  {
    if |rest| == 0 then [chunk]
    else
      var grown := chunk + [rest[0]];
      if (line + 1) % SEGMENT == 0 then [grown] + Segments(version, [version], rest[1..], line + 1)
      else Segments(version, grown, rest[1..], line + 1)
  }

  /** All segments of a file; an empty file still makes one, empty, segment. */
  function AllSegments<Line>(lines: seq<Line>): seq<seq<Line>> {
    if |lines| == 0 then [[]] else Segments(lines[0], [], lines, 1)
  }

  /** One line more. */
  lemma NextLine<Line>(version: Line, chunk: seq<Line>, lines: seq<Line>, n: nat, line: nat)
    requires n < |lines|
    ensures Segments(version, chunk, lines[n..], line)
            == if (line + 1) % SEGMENT == 0 then [chunk + [lines[n]]] + Segments(version, [version], lines[n + 1..], line + 1)
               else Segments(version, chunk + [lines[n]], lines[n + 1..], line + 1)
  {
    assert lines[n..][1..] == lines[n + 1..];
  }

  lemma LastLine<Line>(version: Line, chunk: seq<Line>, lines: seq<Line>, line: nat)
    ensures Segments(version, chunk, lines[|lines|..], line) == [chunk]
    ensures |lines| > 0 ==> AllSegments(lines) == Segments(lines[0], [], lines[0..], 1)
  {
    assert lines[0..] == lines;
  }

  /**
   The scanner loop. `accepts(k)` is whether sending segment k succeeds; the first failure ends the setup with
   an error. What was sent is then everything up to the refused segment, and otherwise everything.
   */
  method SendInSegments<Line>(lines: seq<Line>, accepts: nat -> bool) returns (sent: seq<seq<Line>>, ok: bool)
    ensures sent <= AllSegments(lines)
    ensures ok ==> sent == AllSegments(lines) && forall k: nat :: k < |sent| ==> accepts(k)
    ensures !ok ==> sent != [] && !accepts(|sent| - 1) && forall k: nat :: k < |sent| - 1 ==> accepts(k)
  {
    sent := [];
    var chunk: seq<Line> := [];
    var line := 1;
    var versionLine: seq<Line> := [];  // nothing, or the line
    ghost var all := AllSegments(lines);
    if |lines| > 0 {
      LastLine(lines[0], [], lines, 1);
    } else {
      assert all == [[]];
    }
    hide Segments, AllSegments;
    for n := 0 to |lines|
      invariant line == n + 1
      invariant n > 0 ==> versionLine == [lines[0]]
      invariant n == 0 ==> chunk == [] && sent == []
      invariant |lines| > 0 ==> sent + Segments(lines[0], chunk, lines[n..], line) == all
      invariant forall k: nat :: k < |sent| ==> accepts(k)
    {
      if line == 1 {
        versionLine := [lines[n]];
      }
      NextLine(lines[0], chunk, lines, n, line);
      chunk := chunk + [lines[n]];
      line := line + 1;
      if line % SEGMENT == 0 {
        ghost var rest := Segments(lines[0], [lines[0]], lines[n + 1..], line);
        Regroup(sent, chunk, rest, all);
        sent := sent + [chunk];
        if !accepts(|sent| - 1) {
          return sent, false;
        }
        chunk := versionLine;
      }
    }
    if |lines| > 0 {
      LastLine(lines[0], chunk, lines, line);
    }
    sent := sent + [chunk];
    if !accepts(|sent| - 1) {
      return sent, false;
    }
    return sent, true;
  }

  lemma Regroup<T>(sent: seq<T>, next: T, rest: seq<T>, all: seq<T>)
    requires sent + ([next] + rest) == all
    ensures (sent + [next]) + rest == all && sent + [next] <= all
  {
    assert (sent + [next]) + rest == sent + ([next] + rest);
  }

  // ---------------------------------------------------------------- what the segments look like

  /** The lines of the segments without the repeated version lines. */
  function Payload<Line>(segments: seq<seq<Line>>): seq<Line>
    requires forall k :: 0 < k < |segments| ==> segments[k] != []
  {
    if segments == [] then []
    else segments[0] + Flatten(Tails(segments[1..]))
  }

  function Tails<Line>(segments: seq<seq<Line>>): seq<seq<Line>>
    requires forall k :: 0 <= k < |segments| ==> segments[k] != []
  {
    seq(|segments|, k requires 0 <= k < |segments| => segments[k][1..])
  }

  /** The shape of the segments made of `more` further lines, after `had` lines in the first of them. */
  ghost predicate Shaped<Line>(s: seq<seq<Line>>, version: Line, had: nat, more: nat, line: nat) {
    && |s| == (line + more) / SEGMENT - line / SEGMENT + 1
    && (forall k :: 0 < k < |s| ==> s[k] != [] && s[k][0] == version)
    && |s[0]| == had + (if |s| == 1 then more else SEGMENT - line % SEGMENT)
    && (forall k :: 0 < k < |s| - 1 ==> |s[k]| == 1 + SEGMENT)
    && (|s| > 1 ==> |s[|s| - 1]| == 1 + (line + more) % SEGMENT)
  }

  /** A full segment in front of the others. */
  lemma FullInFront<Line>(first: seq<Line>, s: seq<seq<Line>>, version: Line, more: nat, line: nat)
    requires |first| > 0 && (line + 1) % SEGMENT == 0
    requires Shaped(s, version, 1, more, line + 1) && s[0] != [] && s[0][0] == version
    ensures Shaped([first] + s, version, |first| - 1, more + 1, line)
  {
    assert line / SEGMENT + 1 == (line + 1) / SEGMENT && line % SEGMENT == SEGMENT - 1;
    var all := [first] + s;
    forall k | 0 < k < |all| ensures all[k] == s[k - 1] {
    }
  }

  lemma NotYetFull<Line>(s: seq<seq<Line>>, version: Line, had: nat, more: nat, line: nat)
    requires (line + 1) % SEGMENT != 0 && Shaped(s, version, had + 1, more, line + 1)
    ensures Shaped(s, version, had, more + 1, line)
  {
    assert line / SEGMENT == (line + 1) / SEGMENT && (line + 1) % SEGMENT == line % SEGMENT + 1;
  }

  /**
   The segments that follow a partial one: their number, their headers and their sizes, by the number of lines
   in the whole file.
   */
  lemma {:induction false} SegmentsShape<Line>(version: Line, chunk: seq<Line>, rest: seq<Line>, line: nat)
    requires line >= 1
    ensures var s := Segments(version, chunk, rest, line);
            |s| > 0 && chunk <= s[0] && Shaped(s, version, |chunk|, |rest|, line)
    decreases |rest|
  {
    if |rest| > 0 {
      var grown := chunk + [rest[0]];
      if (line + 1) % SEGMENT == 0 {
        SegmentsShape(version, [version], rest[1..], line + 1);
        FullInFront(grown, Segments(version, [version], rest[1..], line + 1), version, |rest| - 1, line);
      } else {
        SegmentsShape(version, grown, rest[1..], line + 1);
        NotYetFull(Segments(version, grown, rest[1..], line + 1), version, |chunk|, |rest| - 1, line);
      }
      hide Shaped;
    }
  }

  lemma {:induction false} SegmentsPayload<Line>(version: Line, chunk: seq<Line>, rest: seq<Line>, line: nat)
    requires line >= 1
    ensures forall k :: 0 < k < |Segments(version, chunk, rest, line)| ==> Segments(version, chunk, rest, line)[k] != []
    ensures Payload(Segments(version, chunk, rest, line)) == chunk + rest
    decreases |rest|
  {
    SegmentsShape(version, chunk, rest, line);
    if rest != [] {
      var grown := chunk + [rest[0]];
      assert grown + rest[1..] == chunk + rest;
      if (line + 1) % SEGMENT == 0 {
        var more := Segments(version, [version], rest[1..], line + 1);
        SegmentsShape(version, [version], rest[1..], line + 1);
        SegmentsPayload(version, [version], rest[1..], line + 1);
        HeadedPayload(version, more, rest[1..]);
        assert ([grown] + more)[1..] == more;
      } else {
        SegmentsPayload(version, grown, rest[1..], line + 1);
      }
    }
  }

  /** When the first segment is headed as well, dropping all headers leaves the payload after the first line. */
  lemma HeadedPayload<Line>(version: Line, segments: seq<seq<Line>>, lines: seq<Line>)
    requires segments != [] && forall k :: 0 <= k < |segments| ==> segments[k] != []
    requires segments[0][0] == version && Payload(segments) == [version] + lines
    ensures Flatten(Tails(segments)) == lines
  {
    var tails := Tails(segments);
    assert tails[1..] == Tails(segments[1..]);
    assert segments[0] == [version] + segments[0][1..];
    assert [version] + lines == segments[0] + Flatten(tails[1..]);
    assert ([version] + lines)[1..] == lines;
    assert (segments[0] + Flatten(tails[1..]))[1..] == segments[0][1..] + Flatten(tails[1..]);
  }

  /**
   Re-chunking loses nothing: for any file that is not empty every segment starts with the version line;
   there are floor((L + 1) / 1000) + 1 of them; the first has 999 lines (or is the whole of a shorter file), the
   inner ones have 1 + 1000 and the last has fewer; and without the repeated headers they are the file again.
   */
  lemma SegmentsCorrect<Line>(lines: seq<Line>)
    requires lines != []
    ensures var s := AllSegments(lines);
            && |s| == (|lines| + 1) / 1000 + 1
            && (forall k :: 0 <= k < |s| ==> s[k] != [] && s[k][0] == lines[0])
            && |s[0]| == (if |lines| < 999 then |lines| else 999)
            && (forall k :: 0 < k < |s| - 1 ==> |s[k]| == 1001)
            && (|s| > 1 ==> |s[|s| - 1]| == 1 + (|lines| + 1) % 1000)
            && Payload(s) == lines
  {
    var version := lines[0];
    assert [] + [lines[0]] == [version] && lines == [version] + lines[1..];
    SegmentsShape(version, [version], lines[1..], 2);
    SegmentsPayload(version, [version], lines[1..], 2);
    assert AllSegments(lines) == Segments(version, [version], lines[1..], 2);
  }

  // ---------------------------------------------------------------- what the server has when a segment is refused

  /** How many lines of the file the first k segments carry: 999 and then 1000 each, or all of them. */
  function Carried(size: nat, k: nat): nat {
    if k == 0 then 0 else if SEGMENT * k - 1 <= size then SEGMENT * k - 1 else size
  }

  lemma FlattenLength<T>(ss: seq<seq<T>>, n: nat)
    requires forall k :: 0 <= k < |ss| ==> |ss[k]| == n
    ensures |Flatten(ss)| == n * |ss|
    decreases |ss|
  {
    if |ss| > 0 {
      FlattenLength(ss[1..], n);
    }
  }

  lemma {:induction false} FlattenFront<T>(ss: seq<seq<T>>, k: nat)
    requires k <= |ss|
    ensures Flatten(ss[..k]) <= Flatten(ss)
    decreases |ss|
  {
    if k > 0 {
      FlattenFront(ss[1..], k - 1);
      assert ss[..k][1..] == ss[1..][..k - 1];
    } else {
      assert ss[..0] == [];
    }
  }

  /** The first segments carry the first lines. */
  lemma PayloadFront<Line>(segments: seq<seq<Line>>, k: nat)
    requires k <= |segments| && forall j :: 0 < j < |segments| ==> segments[j] != []
    ensures Payload(segments[..k]) <= Payload(segments)
  {
    if k > 0 {
      var tails := Tails(segments[1..]);
      assert segments[..k][1..] == segments[1..][..k - 1];
      assert Tails(segments[1..][..k - 1]) == tails[..k - 1];
      FlattenFront(tails, k - 1);
    } else {
      assert segments[..0] == [];
    }
  }

  lemma PayloadLength<Line>(segments: seq<seq<Line>>)
    requires |segments| > 0 && |segments[0]| == SEGMENT - 1
    requires forall j :: 0 < j < |segments| ==> |segments[j]| == 1 + SEGMENT
    ensures |Payload(segments)| == SEGMENT * |segments| - 1
  {
    FlattenLength(Tails(segments[1..]), SEGMENT);
  }

  /**
   When segment k is refused, the server has taken exactly the first 1000 k - 1 lines of the file (none for k == 0);
   and all of it when none is refused.
   */
  lemma CarriedExactly<Line>(lines: seq<Line>, k: nat)
    requires lines != [] && k <= |AllSegments(lines)|
    ensures forall j :: 0 < j < |AllSegments(lines)| ==> AllSegments(lines)[j] != []
    ensures Carried(|lines|, k) <= |lines|
    ensures Carried(|lines|, k) == if k == 0 then 0 else if k < |AllSegments(lines)| then 1000 * k - 1 else |lines|
    ensures Payload(AllSegments(lines)[..k]) == lines[..Carried(|lines|, k)]
    ensures Carried(|lines|, k) == |lines| <==> k == |AllSegments(lines)| || (k == |AllSegments(lines)| - 1 && (|lines| + 1) % 1000 == 0)
  {
    SegmentsCorrect(lines);
    var all := AllSegments(lines);
    hide AllSegments, Payload, Tails;
    PayloadFront(all, k);
    var front := all[..k];
    assert forall j :: 0 <= j < k ==> front[j] == all[j];
    if k == |all| {
      assert front == all;
      assert lines[..|lines|] == lines;
    } else if k > 0 {
      PayloadLength(front);
    } else {
      NoPayload(front);
    }
  }

  lemma NoPayload<Line>(none: seq<seq<Line>>)
    requires |none| == 0
    ensures Payload(none) == []
  {
  }
}
