/**
 GenerateBulkloadFile's producer and its encoder goroutine. Lines travel as pointers through a channel of
 capacity 100; a user's plain line points at the shared user record, whose Teams the producer empties
 before sending it and puts back later. What the encoder writes is the record as it is when encoded.
 */
module Encoder {
  import opened Collections

  const CAPACITY := 100

  datatype Line =
    | Shared(user: nat)   // &users[i]
    | Own(id: nat)        // a record nobody changes after it was sent

  /** What the producer goroutine does, in program order. */
  datatype Op = Strip(user: nat) | Restore(user: nat) | Send(line: Line)

  /** A line of the file: for a user, whether its Teams were the stripped copy when it was encoded. */
  datatype Encoded = UserLine(user: nat, stripped: bool) | OtherLine(id: nat)

  datatype State = State(pc: nat, queue: seq<Line>, held: Option<Line>, output: seq<Encoded>, closed: bool, done: bool)

  datatype Event = Produce | Close | Receive | Encode | Finish

  /** The lines sent by the first p operations. */
  function Sent(prog: seq<Op>, p: nat): seq<Line>
    requires p <= |prog|
  {
    if p == 0 then []
    else Sent(prog, p - 1) + if prog[p - 1].Send? then [prog[p - 1].line] else []
  }

  /** The users whose Teams are stripped after the first p operations. */
  function Stripped(prog: seq<Op>, p: nat): set<nat>
    requires p <= |prog|
  {
    if p == 0 then {}
    else
      match prog[p - 1]
      case Strip(u) => Stripped(prog, p - 1) + {u}
      case Restore(u) => Stripped(prog, p - 1) - {u}
      case Send(_) => Stripped(prog, p - 1)
  }

  function Snapshot(line: Line, stripped: set<nat>): Encoded {
    match line
    case Shared(u) => UserLine(u, u in stripped)
    case Own(id) => OtherLine(id)
  }

  /** The line an encoded line came from. */
  function Source(e: Encoded): Line {
    match e
    case UserLine(u, _) => Shared(u)
    case OtherLine(id) => Own(id)
  }

  const START := State(0, [], None, [], false, false)

  predicate Enabled(prog: seq<Op>, s: State, e: Event) {
    match e
    case Produce => s.pc < |prog| && (prog[s.pc].Send? ==> |s.queue| < CAPACITY)
    case Close => s.pc == |prog| && !s.closed
    case Receive => s.held.None? && s.queue != []
    case Encode => s.held.Some? && s.pc <= |prog|
    case Finish => s.closed && s.held.None? && s.queue == [] && !s.done
  }

  function Step(prog: seq<Op>, s: State, e: Event): State
    requires Enabled(prog, s, e)
  {
    match e
    case Produce =>
      var queue := if prog[s.pc].Send? then s.queue + [prog[s.pc].line] else s.queue;
      s.(pc := s.pc + 1, queue := queue)
    case Close => s.(closed := true)
    case Receive => s.(held := Some(s.queue[0]), queue := s.queue[1..])
    case Encode => s.(held := None, output := s.output + [Snapshot(s.held.value, Stripped(prog, s.pc))])
    case Finish => s.(done := true)
  }

  predicate ValidRun(prog: seq<Op>, s: State, es: seq<Event>)
    decreases |es|
  {
    es != [] ==> Enabled(prog, s, es[0]) && ValidRun(prog, Step(prog, s, es[0]), es[1..])
  }

  function Run(prog: seq<Op>, s: State, es: seq<Event>): State
    requires ValidRun(prog, s, es)
    decreases |es|
  {
    if es == [] then s else Run(prog, Step(prog, s, es[0]), es[1..])
  }

  ghost predicate Reachable(prog: seq<Op>, s: State) {
    exists es :: ValidRun(prog, START, es) && Run(prog, START, es) == s
  }

  // ---------------------------------------------------------------- order and completeness

  function Held(s: State): seq<Line> {
    if s.held.Some? then [s.held.value] else []
  }

  function Sources(output: seq<Encoded>): (r: seq<Line>)
    ensures |r| == |output|
  {
    seq(|output|, k requires 0 <= k < |output| => Source(output[k]))
  }

  /** Line k was encoded after the first p operations; at most 100 lines were queued behind it then. */
  ghost predicate EncodedAt(prog: seq<Op>, k: nat, e: Encoded, p: nat) {
    && p <= |prog|
    && k < |Sent(prog, p)| <= k + 1 + CAPACITY
    && e == Snapshot(Sent(prog, p)[k], Stripped(prog, p))
  }

  ghost predicate IsSnapshot(prog: seq<Op>, k: nat, e: Encoded) {
    exists p: nat :: EncodedAt(prog, k, e, p)
  }

  ghost predicate Inv(prog: seq<Op>, s: State) {
    && s.pc <= |prog|
    && |s.queue| <= CAPACITY
    && Sent(prog, s.pc) == Sources(s.output) + Held(s) + s.queue
    && (s.closed ==> s.pc == |prog|)
    && (s.done ==> s.closed && s.held.None? && s.queue == [])
    && (forall k :: 0 <= k < |s.output| ==> IsSnapshot(prog, k, s.output[k]))
  }

  lemma ProduceKeepsInv(prog: seq<Op>, s: State)
    requires Inv(prog, s) && Enabled(prog, s, Produce)
    ensures Inv(prog, Step(prog, s, Produce))
  {
    hide IsSnapshot, Sources;
    var t := Step(prog, s, Produce);
    assert Sent(prog, t.pc) == Sources(t.output) + Held(t) + t.queue;
  }

  lemma ReceiveKeepsInv(prog: seq<Op>, s: State)
    requires Inv(prog, s) && Enabled(prog, s, Receive)
    ensures Inv(prog, Step(prog, s, Receive))
  {
    hide IsSnapshot, Sources, Sent;
    var t := Step(prog, s, Receive);
    assert s.queue == [s.queue[0]] + s.queue[1..];
    assert Sent(prog, t.pc) == Sources(t.output) + Held(t) + t.queue;
  }

  lemma EncodeKeepsInv(prog: seq<Op>, s: State)
    requires Inv(prog, s) && Enabled(prog, s, Encode)
    ensures Inv(prog, Step(prog, s, Encode))
  {
    hide Sent, Stripped;
    var t, k := Step(prog, s, Encode), |s.output|;
    assert Sources(t.output) == Sources(s.output) + [s.held.value];
    assert Sent(prog, s.pc)[k] == s.held.value;
    assert EncodedAt(prog, k, t.output[k], s.pc);
    hide EncodedAt;
    assert IsSnapshot(prog, k, t.output[k]);
    assert Sent(prog, t.pc) == Sources(t.output) + Held(t) + t.queue;
  }

  lemma StepKeepsInv(prog: seq<Op>, s: State, e: Event)
    requires Inv(prog, s) && Enabled(prog, s, e)
    ensures Inv(prog, Step(prog, s, e))
  {
    match e
    case Produce => ProduceKeepsInv(prog, s);
    case Receive => ReceiveKeepsInv(prog, s);
    case Encode => EncodeKeepsInv(prog, s);
    case _ =>
  }

  lemma {:induction false} RunKeepsInv(prog: seq<Op>, s: State, es: seq<Event>)
    requires Inv(prog, s) && ValidRun(prog, s, es)
    ensures Inv(prog, Run(prog, s, es))
    decreases |es|
  {
    if es != [] {
      StepKeepsInv(prog, s, es[0]);
      RunKeepsInv(prog, Step(prog, s, es[0]), es[1..]);
    }
  }

  /**
   In every interleaving the file is, at all times, an in-order prefix of what was sent, short of it by at
   most 101 lines; and it holds every line once doneChan is closed.
   */
  lemma OutputInOrder(prog: seq<Op>, s: State)
    requires Reachable(prog, s)
    ensures s.pc <= |prog|
    ensures Sources(s.output) <= Sent(prog, s.pc) && |Sent(prog, s.pc)| <= |s.output| + 1 + CAPACITY
    ensures s.done ==> s.pc == |prog| && Sources(s.output) == Sent(prog, |prog|)
  {
    var es :| ValidRun(prog, START, es) && Run(prog, START, es) == s;
    RunKeepsInv(prog, START, es);
    assert Sources(s.output) + Held(s) + s.queue == Sources(s.output) + (Held(s) + s.queue);
  }

  /** Neither goroutine ever blocks the other for good: until doneChan is closed some step is possible. */
  lemma NeverStuck(prog: seq<Op>, s: State)
    requires Reachable(prog, s) && !s.done
    ensures exists e :: Enabled(prog, s, e)
  {
    OutputInOrder(prog, s);
    if s.held.Some? {
      assert Enabled(prog, s, Encode);
    } else if s.queue != [] {
      assert Enabled(prog, s, Receive);
    } else if s.pc < |prog| {
      assert Enabled(prog, s, Produce);
    } else if !s.closed {
      assert Enabled(prog, s, Close);
    } else {
      assert Enabled(prog, s, Finish);
    }
  }

  // ---------------------------------------------------------------- exactly what can be encoded

  lemma {:induction false} ThenStep(prog: seq<Op>, s: State, es: seq<Event>, e: Event)
    requires ValidRun(prog, s, es) && Enabled(prog, Run(prog, s, es), e)
    ensures ValidRun(prog, s, es + [e]) && Run(prog, s, es + [e]) == Step(prog, Run(prog, s, es), e)
    decreases |es|
  {
    if es == [] {
      assert [] + [e] == [e] && [e][1..] == [];
    } else {
      ThenStep(prog, Step(prog, s, es[0]), es[1..], e);
      assert (es + [e])[1..] == es[1..] + [e];
    }
  }

  lemma ReachStep(prog: seq<Op>, s: State, e: Event)
    requires Reachable(prog, s) && Enabled(prog, s, e)
    ensures Reachable(prog, Step(prog, s, e))
  {
    var es :| ValidRun(prog, START, es) && Run(prog, START, es) == s;
    ThenStep(prog, START, es, e);
  }

  /** At least the number of steps still to come. */
  function Measure(prog: seq<Op>, s: State): int {
    3 * (|prog| - s.pc) + 2 * |s.queue| + |Held(s)| + (if s.closed then 0 else 1) + (if s.done then 0 else 1)
  }

  lemma StepDecreases(prog: seq<Op>, s: State, e: Event)
    requires Inv(prog, s) && Enabled(prog, s, e)
    ensures 0 <= Measure(prog, Step(prog, s, e)) < Measure(prog, s)
  {
    hide Sent, IsSnapshot, Sources, Snapshot, Stripped;
  }

  lemma {:induction false} MeasureBoundsRun(prog: seq<Op>, s: State, es: seq<Event>)
    requires Inv(prog, s) && ValidRun(prog, s, es)
    ensures |es| <= Measure(prog, s)
    decreases |es|
  {
    if es == [] {
      NotNegative(prog, s);
    } else {
      StepKeepsInv(prog, s, es[0]);
      StepDecreases(prog, s, es[0]);
      hide Inv, Enabled, Step, Measure;
      MeasureBoundsRun(prog, Step(prog, s, es[0]), es[1..]);
    }
  }

  lemma NotNegative(prog: seq<Op>, s: State)
    requires Inv(prog, s)
    ensures Measure(prog, s) >= 0
  {
    hide Sent, IsSnapshot, Sources;
  }

  lemma StartInv(prog: seq<Op>)
    ensures Inv(prog, START)
  {
  }

  /** Every run comes to an end: after at most three steps for each operation of the producer, and two. */
  lemma RunsAreBounded(prog: seq<Op>, es: seq<Event>)
    requires ValidRun(prog, START, es)
    ensures |es| <= 3 * |prog| + 2
  {
    StartInv(prog);
    MeasureBoundsRun(prog, START, es);
  }

  lemma ReachableInv(prog: seq<Op>, s: State)
    requires Reachable(prog, s)
    ensures Inv(prog, s)
  {
    var es :| ValidRun(prog, START, es) && Run(prog, START, es) == s;
    hide Inv;
    StartInv(prog);
    RunKeepsInv(prog, START, es);
  }

  lemma OutputGrows(prog: seq<Op>, s: State, e: Event)
    requires Enabled(prog, s, e)
    ensures s.output <= Step(prog, s, e).output
  {
  }

  /** From wherever it is, the system can run to its end, and what is written stays written. */
  lemma {:induction false} CanFinish(prog: seq<Op>, s: State) returns (t: State)
    requires Reachable(prog, s)
    ensures Reachable(prog, t) && t.done && s.output <= t.output
    decreases Measure(prog, s)
  {
    hide Reachable, Inv, Enabled, Step, Measure;
    if s.done {
      t := s;
    } else {
      NeverStuck(prog, s);
      var e :| Enabled(prog, s, e);
      ReachableInv(prog, s);
      StepDecreases(prog, s, e);
      ReachStep(prog, s, e);
      OutputGrows(prog, s, e);
      t := CanFinish(prog, Step(prog, s, e));
    }
  }

  /** An encoder that always keeps up. */
  lemma {:induction false} EagerRun(prog: seq<Op>, p: nat) returns (s: State)
    requires p <= |prog|
    ensures Reachable(prog, s) && s.pc == p && s.queue == [] && s.held.None? && |s.output| == |Sent(prog, p)|
    ensures !s.closed && !s.done
  {
    if p == 0 {
      s := START;
      assert ValidRun(prog, START, []) && Run(prog, START, []) == START;
    } else {
      s := EagerRun(prog, p - 1);
      ReachStep(prog, s, Produce);
      s := Step(prog, s, Produce);
      if prog[p - 1].Send? {
        ReachStep(prog, s, Receive);
        s := Step(prog, s, Receive);
        ReachStep(prog, s, Encode);
        s := Step(prog, s, Encode);
      }
    }
  }

  lemma {:induction false} SentPrefix(prog: seq<Op>, p: nat, q: nat)
    requires p <= q <= |prog|
    ensures Sent(prog, p) <= Sent(prog, q)
    decreases q
  {
    if p < q {
      SentPrefix(prog, p, q - 1);
    }
  }

  /** The operation that sends line k. */
  lemma {:induction false} SendOf(prog: seq<Op>, k: nat, p: nat) returns (a: nat)
    requires p <= |prog| && k < |Sent(prog, p)|
    ensures a < p && prog[a].Send? && |Sent(prog, a)| == k && prog[a].line == Sent(prog, p)[k]
    decreases p
  {
    if k < |Sent(prog, p - 1)| {
      a := SendOf(prog, k, p - 1);
    } else {
      a := p - 1;
    }
  }

  /** An encoder that has received line k, sent by operation a, and pauses while the producer runs on to p. */
  lemma {:induction false} HoldingRun(prog: seq<Op>, k: nat, a: nat, p: nat) returns (s: State)
    requires a < p <= |prog| && prog[a].Send? && |Sent(prog, a)| == k && |Sent(prog, p)| <= k + 1 + CAPACITY
    ensures Reachable(prog, s) && s.pc == p && s.held == Some(prog[a].line)
    ensures |s.output| == k && |s.queue| == |Sent(prog, p)| - k - 1
    decreases p
  {
    if p == a + 1 {
      s := EagerRun(prog, a);
      ReachStep(prog, s, Produce);
      s := Step(prog, s, Produce);
      ReachStep(prog, s, Receive);
      s := Step(prog, s, Receive);
    } else {
      SentPrefix(prog, p - 1, p);
      s := HoldingRun(prog, k, a, p - 1);
      ReachStep(prog, s, Produce);
      s := Step(prog, s, Produce);
    }
  }

  ghost predicate CanEncode(prog: seq<Op>, k: nat, e: Encoded) {
    exists s :: Reachable(prog, s) && k < |s.output| && s.output[k] == e
  }

  lemma EncodedIsSnapshot(prog: seq<Op>, s: State, k: nat)
    requires Reachable(prog, s) && k < |s.output|
    ensures IsSnapshot(prog, k, s.output[k])
  {
    ReachableInv(prog, s);
    hide Reachable, Sent, IsSnapshot;
  }

  lemma SnapshotIsEncoded(prog: seq<Op>, k: nat, e: Encoded, p: nat)
    requires EncodedAt(prog, k, e, p)
    ensures CanEncode(prog, k, e)
  {
    hide Reachable, Sent, Stripped;
    var a := SendOf(prog, k, p);
    var s := HoldingRun(prog, k, a, p);
    ReachStep(prog, s, Encode);
    var t := Step(prog, s, Encode);
    assert t.output[k] == e;
  }

  /**
   What line k can look like in the file, over all interleavings: exactly its snapshots at the moments of
   the producer's run when the line has been sent and at most 100 lines have been sent after it.
   */
  lemma EncodingsExactly(prog: seq<Op>, k: nat, e: Encoded)
    ensures CanEncode(prog, k, e) <==> IsSnapshot(prog, k, e)
  {
    hide Reachable, EncodedAt;
    if CanEncode(prog, k, e) {
      var s :| Reachable(prog, s) && k < |s.output| && s.output[k] == e;
      EncodedIsSnapshot(prog, s, k);
    }
    if p: nat :| EncodedAt(prog, k, e, p) {
      SnapshotIsEncoded(prog, k, e, p);
    }
  }

  // ---------------------------------------------------------------- users restored too early

  /** User u is stripped before operation a sends its line, restored by operation b, and not touched otherwise after a. */
  ghost predicate StrippedAround(prog: seq<Op>, u: nat, a: nat, b: nat) {
    && a < b < |prog|
    && prog[a] == Send(Shared(u)) && prog[b] == Restore(u)
    && u in Stripped(prog, a)
    && forall q :: a < q < |prog| && q != b ==> prog[q] != Strip(u) && prog[q] != Restore(u)
  }

  lemma {:induction false} StrippedUntil(prog: seq<Op>, u: nat, a: nat, b: nat, p: nat)
    requires StrippedAround(prog, u, a, b) && a <= p <= |prog|
    ensures u in Stripped(prog, p) <==> p <= b
    decreases p
  {
    if p > a {
      StrippedUntil(prog, u, a, b, p - 1);
    }
  }

  /** The number of lines sent after operation a and before operation b. */
  function SendsBetween(prog: seq<Op>, a: nat, b: nat): int
    requires a < b <= |prog|
  {
    |Sent(prog, b)| - |Sent(prog, a + 1)|
  }

  /** An encoding with the Teams back is one after operation b, with at most 100 lines sent after line k. */
  lemma RestoredMeansClose(prog: seq<Op>, u: nat, a: nat, b: nat, p: nat)
    requires StrippedAround(prog, u, a, b) && EncodedAt(prog, |Sent(prog, a)|, UserLine(u, false), p)
    ensures SendsBetween(prog, a, b) < 101
  {
    if p <= a {
      SentPrefix(prog, p, a);
      assert false;
    }
    SentPrefix(prog, a + 1, p);
    LineSent(prog, a);
    StrippedUntil(prog, u, a, b, p);
    hide StrippedAround, Sent, Stripped;
    SentPrefix(prog, b, p);
  }

  lemma LineSent(prog: seq<Op>, a: nat)
    requires a < |prog| && prog[a].Send?
    ensures Sent(prog, a + 1) == Sent(prog, a) + [prog[a].line]
  {
  }

  lemma CloseMeansRestored(prog: seq<Op>, u: nat, a: nat, b: nat)
    requires StrippedAround(prog, u, a, b) && SendsBetween(prog, a, b) < 101
    ensures EncodedAt(prog, |Sent(prog, a)|, UserLine(u, false), b + 1)
  {
    LineSent(prog, a);
    StrippedUntil(prog, u, a, b, b + 1);
    SentPrefix(prog, a + 1, b + 1);
    assert Sent(prog, b + 1) == Sent(prog, b);
    hide StrippedAround, Sent, Stripped;
    assert Sent(prog, b + 1)[|Sent(prog, a)|] == Sent(prog, a + 1)[|Sent(prog, a)|];
  }

  /**
   A user's plain line is encoded with its channel memberships stripped, in every interleaving, exactly if
   at least 101 lines are sent between it and the restoring of the user's Teams.
   */
  lemma StrippedIffFarEnough(prog: seq<Op>, u: nat, a: nat, b: nat)
    requires StrippedAround(prog, u, a, b)
    ensures !CanEncode(prog, |Sent(prog, a)|, UserLine(u, false)) <==> SendsBetween(prog, a, b) >= 101
  {
    assert a < b < |prog|;
    hide StrippedAround, Sent, EncodedAt, CanEncode, SendsBetween;
    var k := |Sent(prog, a)|;
    EncodingsExactly(prog, k, UserLine(u, false));
    if p: nat :| EncodedAt(prog, k, UserLine(u, false), p) {
      RestoredMeansClose(prog, u, a, b, p);
    }
    if SendsBetween(prog, a, b) < 101 {
      CloseMeansRestored(prog, u, a, b);
    }
  }
}
