/**
 The second producer/consumer system of LoadPosts: the goroutines of ThreadSplit send lines over an unbuffered
 channel to goroutines running importCSVToSQL, which load them in batches.
 */
module PostImport {
  import opened Collections
  import P = Posts
  import ThreadSplit

  const BATCH := 1000
  const CONSUMERS := 4
  const THREADS := 4

  // ---------------------------------------------------------------- importCSVToSQL

  /** What one importer has loaded: full batches, and after the end of the channel one that is not full. */
  ghost predicate Batched<T>(batches: seq<seq<T>>, finished: bool) {
    && (finished ==> |batches| > 0 && |batches[|batches| - 1]| < 1000)
    && (forall k :: 0 <= k < |batches| - (if finished then 1 else 0) ==> |batches[k]| == 1000)
  }

  /** importCSVToSQL on its own, given the lines it receives until the channel is closed. */
  method Import<T>(lines: seq<T>) returns (batches: seq<seq<T>>)
    ensures Batched(batches, true)
    ensures Flatten(batches) == lines
    ensures |batches| == |lines| / 1000 + 1
  {
    batches := [];
    var done := false;
    var next := 0;
    while !done
      invariant next <= |lines|
      invariant Flatten(batches) == lines[..next]
      invariant Batched(batches, done)
      invariant !done ==> next == BATCH * |batches|
      invariant done ==> next == |lines| && |batches| == |lines| / BATCH + 1
      decreases !done, |lines| - next
    {
      var file := [];
      var numLines := 0;
      ghost var start := next;
      while true
        invariant start <= next <= |lines| && numLines == |file| == next - start < BATCH
        invariant file == lines[start..next]
        decreases |lines| - next
      {
        if next == |lines| {
          done := true;
          break;
        }
        file := file + [lines[next]];
        next := next + 1;
        numLines := numLines + 1;
        if numLines >= BATCH {
          break;
        }
      }
      FlattenAppend(batches, file);
      assert lines[..start] + lines[start..next] == lines[..next];
      batches := batches + [file];
    }
    assert lines[..next] == lines;
  }

  // ---------------------------------------------------------------- the whole system, step by step

  /** file: written and not loaded yet. ended: the receive has reported the end of the channel. */
  datatype Importer<T> = Importer(file: seq<T>, batches: seq<seq<T>>, ended: bool, done: bool)

  /** next[p] is the position in its stream of the line producer p sends next. */
  datatype State<T> = State(next: seq<nat>, closed: bool, importers: seq<Importer<T>>)

  datatype Event = Transfer(p: nat, c: nat) | CloseLines | SeeEnd(c: nat) | Load(c: nat)

  function Start<T>(streams: seq<seq<T>>, numImporters: nat): State<T> {
    State(seq(|streams|, p => 0), false, seq(numImporters, c => Importer([], [], false, false)))
  }

  /** The importer waits for a line. */
  predicate Receiving<T>(c: Importer<T>) {
    |c.file| < BATCH && !c.ended
  }

  predicate AllSent<T>(streams: seq<seq<T>>, s: State<T>) {
    |s.next| == |streams| && forall p :: 0 <= p < |streams| ==> s.next[p] >= |streams[p]|
  }

  /** ThreadSplit returns before the channel is closed; a line moves when its sender and some importer meet. */
  predicate Enabled<T>(streams: seq<seq<T>>, s: State<T>, e: Event) {
    match e
    case Transfer(p, c) =>
      p < |streams| == |s.next| && s.next[p] < |streams[p]| && c < |s.importers| && Receiving(s.importers[c])
    case CloseLines => !s.closed && AllSent(streams, s)
    case SeeEnd(c) => s.closed && c < |s.importers| && Receiving(s.importers[c])
    case Load(c) => c < |s.importers| && !Receiving(s.importers[c]) && !s.importers[c].done
  }

  function Received<T>(c: Importer<T>, line: T): Importer<T> {
    c.(file := c.file + [line])
  }

  function Loaded<T>(c: Importer<T>): Importer<T> {
    c.(file := [], batches := c.batches + [c.file], done := c.ended)
  }

  function Step<T>(streams: seq<seq<T>>, s: State<T>, e: Event): State<T>
    requires Enabled(streams, s, e)
  {
    match e
    case Transfer(p, c) =>
      s.(next := s.next[p := s.next[p] + 1],
         importers := s.importers[c := Received(s.importers[c], streams[p][s.next[p]])])
    case CloseLines => s.(closed := true)
    case SeeEnd(c) => s.(importers := s.importers[c := s.importers[c].(ended := true)])
    case Load(c) => s.(importers := s.importers[c := Loaded(s.importers[c])])
  }

  predicate ValidRun<T>(streams: seq<seq<T>>, s: State<T>, es: seq<Event>)
    decreases |es|
  {
    |es| > 0 ==> Enabled(streams, s, es[0]) && ValidRun(streams, Step(streams, s, es[0]), es[1..])
  }

  function Run<T>(streams: seq<seq<T>>, s: State<T>, es: seq<Event>): State<T>
    requires ValidRun(streams, s, es)
    decreases |es|
  {
    if |es| == 0 then s else Run(streams, Step(streams, s, es[0]), es[1..])
  }

  /** wg.Wait returns. */
  predicate Finished<T>(s: State<T>) {
    forall c :: 0 <= c < |s.importers| ==> s.importers[c].done
  }

  // ---------------------------------------------------------------- sums

  /** The first n multisets together. */
  ghost function Union<T>(ms: seq<multiset<T>>, n: nat): multiset<T>
    requires n <= |ms|
  {
    if n == 0 then multiset{} else Union(ms, n - 1) + ms[n - 1]
  }

  lemma {:induction false} UnionSame<T>(ms: seq<multiset<T>>, i: nat, m: multiset<T>, n: nat)
    requires n <= i < |ms|
    ensures Union(ms[i := m], n) == Union(ms, n)
  {
    if n > 0 {
      UnionSame(ms, i, m, n - 1);
    }
  }

  lemma {:induction false} UnionUpdate<T>(ms: seq<multiset<T>>, i: nat, m: multiset<T>, n: nat)
    requires i < n <= |ms|
    ensures Union(ms[i := m], n) + ms[i] == Union(ms, n) + m
  {
    if i == n - 1 {
      UnionSame(ms, i, m, n - 1);
    } else {
      UnionUpdate(ms, i, m, n - 1);
      Exchange(Union(ms[i := m], n - 1), ms[i], Union(ms, n - 1), m, ms[n - 1]);
    }
  }

  lemma Exchange<T>(a: multiset<T>, x: multiset<T>, b: multiset<T>, y: multiset<T>, e: multiset<T>)
    requires a + x == b + y
    ensures (a + e) + x == (b + e) + y
  {
    assert (a + e) + x == (a + x) + e;
    assert (b + e) + y == (b + y) + e;
  }

  lemma Cancel<T>(a: multiset<T>, b: multiset<T>, x: multiset<T>, y: multiset<T>)
    requires a + x == b + (x + y)
    ensures a == b + y
  {
    forall e ensures a[e] == (b + y)[e] {
      assert (a + x)[e] == (b + (x + y))[e];
    }
  }

  function Sum(ns: seq<nat>, n: nat): nat
    requires n <= |ns|
  {
    if n == 0 then 0 else Sum(ns, n - 1) + ns[n - 1]
  }

  lemma {:induction false} SumUpdate(ns: seq<nat>, i: nat, m: nat, n: nat)
    requires n <= |ns| && i < |ns|
    ensures Sum(ns[i := m], n) + (if i < n then ns[i] else 0) == Sum(ns, n) + (if i < n then m else 0)
  {
    if n > 0 {
      SumUpdate(ns, i, m, n - 1);
    }
  }

  // ---------------------------------------------------------------- conservation

  /** Everything an importer has taken off the channel. */
  ghost function Taken<T>(c: Importer<T>): multiset<T> {
    multiset(Flatten(c.batches)) + multiset(c.file)
  }

  ghost function AllTaken<T>(s: State<T>): seq<multiset<T>> {
    seq(|s.importers|, c requires 0 <= c < |s.importers| => Taken(s.importers[c]))
  }

  ghost function ToSend<T>(stream: seq<T>, next: nat): multiset<T> {
    if next <= |stream| then multiset(stream[next..]) else multiset{}
  }

  ghost function AllToSend<T>(streams: seq<seq<T>>, s: State<T>): seq<multiset<T>>
    requires |s.next| == |streams|
  {
    seq(|streams|, p requires 0 <= p < |streams| => ToSend(streams[p], s.next[p]))
  }

  /** Everything: taken or still to be sent. */
  ghost function Everything<T>(streams: seq<seq<T>>, s: State<T>): multiset<T>
    requires |s.next| == |streams|
  {
    Union(AllTaken(s), |s.importers|) + Union(AllToSend(streams, s), |streams|)
  }

  ghost predicate ImporterInv<T>(c: Importer<T>) {
    && |c.file| <= BATCH
    && (c.ended ==> |c.file| < BATCH)
    && (c.done ==> c.ended && |c.file| == 0)
    && Batched(c.batches, c.done)
  }

  ghost predicate Inv<T>(streams: seq<seq<T>>, s: State<T>, all: multiset<T>) {
    && |s.next| == |streams|
    && (forall p :: 0 <= p < |streams| ==> s.next[p] <= |streams[p]|)
    && (forall c :: 0 <= c < |s.importers| ==> ImporterInv(s.importers[c]))
    && (s.closed ==> AllSent(streams, s))
    && (forall c :: 0 <= c < |s.importers| ==> s.importers[c].ended ==> s.closed)
    && Everything(streams, s) == all
  }

  lemma SendMoves<T>(stream: seq<T>, next: nat)
    requires next < |stream|
    ensures ToSend(stream, next) == multiset{stream[next]} + ToSend(stream, next + 1)
  {
    assert stream[next..] == [stream[next]] + stream[next + 1..];
  }

  /** Moving elements from one place to another leaves the whole as it is. */
  lemma MoveConserves<T>(to: seq<multiset<T>>, c: nat, from: seq<multiset<T>>, p: nat, moved: multiset<T>, rest: multiset<T>)
    requires c < |to| && p < |from| && from[p] == moved + rest
    ensures Union(to[c := to[c] + moved], |to|) + Union(from[p := rest], |from|) == Union(to, |to|) + Union(from, |from|)
  {
    UnionUpdate(to, c, to[c] + moved, |to|);
    UnionUpdate(from, p, rest, |from|);
    hide Union;
    Cancel(Union(to[c := to[c] + moved], |to|), Union(to, |to|), to[c], moved);
    Cancel(Union(from, |from|), Union(from[p := rest], |from|), rest, moved);
  }

  lemma TransferConserves<T>(streams: seq<seq<T>>, s: State<T>, p: nat, c: nat)
    requires Enabled(streams, s, Transfer(p, c)) && |s.next| == |streams|
    ensures Everything(streams, Step(streams, s, Transfer(p, c))) == Everything(streams, s)
  {
    hide Union, ToSend, Taken, ValidRun, Receiving;
    var t := Step(streams, s, Transfer(p, c));
    var line := streams[p][s.next[p]];
    SendMoves(streams[p], s.next[p]);
    TakenGrows(s.importers[c], line);
    assert AllTaken(t) == AllTaken(s)[c := Taken(t.importers[c])];
    assert AllToSend(streams, t) == AllToSend(streams, s)[p := ToSend(streams[p], t.next[p])];
    MoveConserves(AllTaken(s), c, AllToSend(streams, s), p, multiset{line}, ToSend(streams[p], t.next[p]));
  }

  lemma TakenGrows<T>(c: Importer<T>, line: T)
    ensures Taken(Received(c, line)) == Taken(c) + multiset{line}
  {
  }

  lemma SameConserves<T>(streams: seq<seq<T>>, s: State<T>, t: State<T>)
    requires |s.next| == |streams| && t.next == s.next && |t.importers| == |s.importers|
    requires forall c :: 0 <= c < |s.importers| ==> Taken(t.importers[c]) == Taken(s.importers[c])
    ensures Everything(streams, t) == Everything(streams, s)
  {
    hide Union, Taken, ToSend;
    assert AllTaken(t) == AllTaken(s) && AllToSend(streams, t) == AllToSend(streams, s);
  }

  /** A step moves at most one line, from a stream to an importer. */
  lemma StepConserves<T>(streams: seq<seq<T>>, s: State<T>, e: Event)
    requires Enabled(streams, s, e) && |s.next| == |streams|
    ensures |Step(streams, s, e).next| == |streams| && Everything(streams, Step(streams, s, e)) == Everything(streams, s)
  {
    hide Everything, Flatten;
    if e.Transfer? {
      TransferConserves(streams, s, e.p, e.c);
    } else {
      if e.Load? {
        FlattenAppend(s.importers[e.c].batches, s.importers[e.c].file);
      }
      SameConserves(streams, s, Step(streams, s, e));
    }
  }

  lemma LoadKeepsImporter<T>(c: Importer<T>)
    requires ImporterInv(c) && !Receiving(c) && !c.done
    ensures ImporterInv(Loaded(c))
  {
  }

  lemma StepKeepsInv<T>(streams: seq<seq<T>>, s: State<T>, e: Event, all: multiset<T>)
    requires Inv(streams, s, all) && Enabled(streams, s, e)
    ensures Inv(streams, Step(streams, s, e), all) && |Step(streams, s, e).importers| == |s.importers|
  {
    hide Everything, Batched;
    StepConserves(streams, s, e);
    if e.Load? {
      LoadKeepsImporter(s.importers[e.c]);
    }
  }

  lemma {:induction false} RunKeepsInv<T>(streams: seq<seq<T>>, s: State<T>, es: seq<Event>, all: multiset<T>)
    requires Inv(streams, s, all) && ValidRun(streams, s, es)
    ensures Inv(streams, Run(streams, s, es), all) && |Run(streams, s, es).importers| == |s.importers|
    decreases |es|
  {
    hide Inv, Enabled;
    if |es| > 0 {
      StepKeepsInv(streams, s, es[0], all);
      RunKeepsInv(streams, Step(streams, s, es[0]), es[1..], all);
    }
  }

  lemma {:induction false} UnionOfEmpty<T>(ms: seq<multiset<T>>, n: nat)
    requires n <= |ms| && forall k :: 0 <= k < n ==> ms[k] == multiset{}
    ensures Union(ms, n) == multiset{}
  {
    if n > 0 {
      UnionOfEmpty(ms, n - 1);
    }
  }

  /** All lines of the first n streams. */
  lemma {:induction false} UnionOfStreams<T>(streams: seq<seq<T>>, s: State<T>, n: nat)
    requires s.next == seq(|streams|, p => 0) && n <= |streams|
    ensures Union(AllToSend(streams, s), n) == multiset(Flatten(streams[..n]))
  {
    if n > 0 {
      hide Flatten;
      UnionOfStreams(streams, s, n - 1);
      FlattenAppend(streams[..n - 1], streams[n - 1]);
      assert streams[..n - 1] + [streams[n - 1]] == streams[..n];
      assert AllToSend(streams, s)[n - 1] == ToSend(streams[n - 1], 0);
      assert streams[n - 1][0..] == streams[n - 1];
    }
  }

  lemma StartInv<T>(streams: seq<seq<T>>, numImporters: nat)
    ensures Inv(streams, Start(streams, numImporters), multiset(Flatten(streams)))
  {
    var s := Start(streams, numImporters);
    StartEverything(streams, numImporters);
    hide Everything;
  }

  lemma StartEverything<T>(streams: seq<seq<T>>, numImporters: nat)
    ensures Everything(streams, Start(streams, numImporters)) == multiset(Flatten(streams))
  {
    var s := Start(streams, numImporters);
    forall c | 0 <= c < numImporters ensures AllTaken(s)[c] == multiset{} {
      NothingFlat<T>();
      assert s.importers[c].batches == [] && s.importers[c].file == [];
    }
    hide Union, Flatten, Taken, ToSend;
    UnionOfEmpty(AllTaken(s), numImporters);
    UnionOfStreams(streams, s, |streams|);
    assert streams[..|streams|] == streams;
  }

  lemma NothingFlat<T>()
    ensures Flatten<T>([]) == []
  {
  }

  // ---------------------------------------------------------------- the main results

  ghost function LoadedByEach<T>(s: State<T>): seq<multiset<T>> {
    seq(|s.importers|, c requires 0 <= c < |s.importers| => multiset(Flatten(s.importers[c].batches)))
  }

  ghost function AllLoaded<T>(s: State<T>): multiset<T> {
    Union(LoadedByEach(s), |s.importers|)
  }

  /**
   In every interleaving, at any time, each line is still to be sent or with one importer, exactly as often as it
   was made; and when all importers are done, the lines they loaded are exactly the lines of all streams, in
   batches that are full except for one shorter (possibly empty) last batch of each importer.
   */
  lemma EachLineLoadedOnce<T>(streams: seq<seq<T>>, numImporters: nat, es: seq<Event>)
    requires numImporters > 0 && ValidRun(streams, Start(streams, numImporters), es)
    ensures var s := Run(streams, Start(streams, numImporters), es);
            && |s.next| == |streams| && Everything(streams, s) == multiset(Flatten(streams))
            && (forall c :: 0 <= c < |s.importers| ==> Batched(s.importers[c].batches, s.importers[c].done))
            && (Finished(s) ==> AllLoaded(s) == multiset(Flatten(streams)))
  {
    var s := Run(streams, Start(streams, numImporters), es);
    StartInv(streams, numImporters);
    RunKeepsInv(streams, Start(streams, numImporters), es, multiset(Flatten(streams)));
    if Finished(s) {
      FinishedLoadsAll(streams, s, multiset(Flatten(streams)));
    }
  }

  /** The lines one importer receives in a run, in order. */
  function ReceivedBy<T>(streams: seq<seq<T>>, s: State<T>, es: seq<Event>, c: nat): seq<T>
    requires ValidRun(streams, s, es)
    decreases |es|
  {
    if |es| == 0 then []
    else (if es[0].Transfer? && es[0].c == c then [streams[es[0].p][s.next[es[0].p]]] else [])
         + ReceivedBy(streams, Step(streams, s, es[0]), es[1..], c)
  }

  /** What an importer has written so far: its batches, and the file it is filling. */
  function WrittenBy<T>(c: Importer<T>): seq<T> {
    Flatten(c.batches) + c.file
  }

  lemma WriteStep<T>(streams: seq<seq<T>>, s: State<T>, e: Event, c: nat)
    requires Enabled(streams, s, e) && c < |s.importers|
    ensures |Step(streams, s, e).importers| == |s.importers|
    ensures WrittenBy(Step(streams, s, e).importers[c])
            == WrittenBy(s.importers[c]) + if e.Transfer? && e.c == c then [streams[e.p][s.next[e.p]]] else []
  {
    hide Flatten;
    if e.Load? && e.c == c {
      FlattenAppend(s.importers[c].batches, s.importers[c].file);
    }
  }

  /** Whatever the schedule, an importer loads the lines in the order it receives them. */
  lemma {:induction false} ImportersKeepOrder<T>(streams: seq<seq<T>>, s: State<T>, es: seq<Event>, c: nat)
    requires ValidRun(streams, s, es) && c < |s.importers|
    ensures |Run(streams, s, es).importers| == |s.importers|
    ensures WrittenBy(Run(streams, s, es).importers[c]) == WrittenBy(s.importers[c]) + ReceivedBy(streams, s, es, c)
    decreases |es|
  {
    hide Enabled, Step, WrittenBy;
    if |es| > 0 {
      WriteStep(streams, s, es[0], c);
      ImportersKeepOrder(streams, Step(streams, s, es[0]), es[1..], c);
    }
  }

  lemma FinishedLoadsAll<T>(streams: seq<seq<T>>, s: State<T>, all: multiset<T>)
    requires Inv(streams, s, all) && Finished(s) && |s.importers| > 0
    ensures AllLoaded(s) == all
  {
    hide Batched;
    assert s.importers[0].done;
    assert AllSent(streams, s);
    forall p | 0 <= p < |streams| ensures AllToSend(streams, s)[p] == multiset{} {
    }
    UnionOfEmpty(AllToSend(streams, s), |streams|);
    forall c | 0 <= c < |s.importers| ensures AllTaken(s)[c] == LoadedByEach(s)[c] {
      assert s.importers[c].done && ImporterInv(s.importers[c]);
      assert s.importers[c].file == [];
    }
    assert AllTaken(s) == LoadedByEach(s);
  }

  /** Until all importers are done, someone can move. */
  lemma NeverStuck<T>(streams: seq<seq<T>>, numImporters: nat, es: seq<Event>)
    requires ValidRun(streams, Start(streams, numImporters), es)
    ensures var s := Run(streams, Start(streams, numImporters), es);
            Finished(s) || exists e :: Enabled(streams, s, e)
  {
    var s := Run(streams, Start(streams, numImporters), es);
    StartInv(streams, numImporters);
    RunKeepsInv(streams, Start(streams, numImporters), es, multiset(Flatten(streams)));
    if !Finished(s) {
      SomeoneMoves(streams, s, multiset(Flatten(streams)));
    }
  }

  lemma SomeoneMoves<T>(streams: seq<seq<T>>, s: State<T>, all: multiset<T>)
    requires Inv(streams, s, all) && !Finished(s)
    ensures exists e :: Enabled(streams, s, e)
  {
    hide Everything, Batched;
    var c :| 0 <= c < |s.importers| && !s.importers[c].done;
    if !Receiving(s.importers[c]) {
      assert Enabled(streams, s, Load(c));
    } else if s.closed {
      assert Enabled(streams, s, SeeEnd(c));
    } else if AllSent(streams, s) {
      assert Enabled(streams, s, CloseLines);
    } else {
      var p :| 0 <= p < |streams| && s.next[p] < |streams[p]|;
      assert Enabled(streams, s, Transfer(p, c));
    }
  }

  // ---------------------------------------------------------------- bounded runs

  function Work<T>(c: Importer<T>): nat {
    if c.done then 0 else if c.ended then 1 else if |c.file| < BATCH then 2 else 3
  }

  function Works<T>(s: State<T>): seq<nat> {
    seq(|s.importers|, c requires 0 <= c < |s.importers| => Work(s.importers[c]))
  }

  function Unsent<T>(stream: seq<T>, next: nat): nat {
    if next <= |stream| then |stream| - next else 0
  }

  function Unsents<T>(streams: seq<seq<T>>, s: State<T>): seq<nat>
    requires |s.next| == |streams|
  {
    seq(|streams|, p requires 0 <= p < |streams| => Unsent(streams[p], s.next[p]))
  }

  /** More than the number of steps still to come. */
  function Measure<T>(streams: seq<seq<T>>, s: State<T>): nat
    requires |s.next| == |streams|
  {
    2 * Sum(Unsents(streams, s), |streams|) + Sum(Works(s), |s.importers|) + if s.closed then 0 else 1
  }

  lemma ImporterStep<T>(streams: seq<seq<T>>, s: State<T>, c: nat, after: Importer<T>)
    requires c < |s.importers|
    ensures Sum(Works(s.(importers := s.importers[c := after])), |s.importers|) + Work(s.importers[c])
            == Sum(Works(s), |s.importers|) + Work(after)
  {
    assert Works(s.(importers := s.importers[c := after])) == Works(s)[c := Work(after)];
    SumUpdate(Works(s), c, Work(after), |s.importers|);
  }

  lemma StepDecreases<T>(streams: seq<seq<T>>, s: State<T>, e: Event)
    requires |s.next| == |streams| && Enabled(streams, s, e)
    requires forall c :: 0 <= c < |s.importers| ==> ImporterInv(s.importers[c])
    ensures |Step(streams, s, e).next| == |streams| && Measure(streams, Step(streams, s, e)) < Measure(streams, s)
  {
    hide Batched, Sum;
    var t := Step(streams, s, e);
    match e {
      case Transfer(p, c) =>
        ImporterStep(streams, s, c, t.importers[c]);
        assert Works(t) == Works(s.(importers := t.importers));
        assert Unsents(streams, t) == Unsents(streams, s)[p := Unsent(streams[p], t.next[p])];
        SumUpdate(Unsents(streams, s), p, Unsent(streams[p], t.next[p]), |streams|);
      case CloseLines =>
        assert Works(t) == Works(s) && Unsents(streams, t) == Unsents(streams, s);
      case SeeEnd(c) =>
        ImporterStep(streams, s, c, t.importers[c]);
        assert Unsents(streams, t) == Unsents(streams, s);
      case Load(c) =>
        ImporterStep(streams, s, c, t.importers[c]);
        assert Unsents(streams, t) == Unsents(streams, s);
    }
  }

  lemma {:induction false} MeasureBoundsRun<T>(streams: seq<seq<T>>, s: State<T>, es: seq<Event>, all: multiset<T>)
    requires Inv(streams, s, all) && ValidRun(streams, s, es)
    ensures |es| <= Measure(streams, s)
    decreases |es|
  {
    hide Everything, Enabled, Batched, ImporterInv;
    if |es| > 0 {
      StepDecreases(streams, s, es[0]);
      StepKeepsInv(streams, s, es[0], all);
      MeasureBoundsRun(streams, Step(streams, s, es[0]), es[1..], all);
    }
  }

  lemma {:induction false} SumOfTwos(ns: seq<nat>, n: nat)
    requires n <= |ns| && forall k :: 0 <= k < n ==> ns[k] == 2
    ensures Sum(ns, n) == 2 * n
  {
    if n > 0 {
      SumOfTwos(ns, n - 1);
    }
  }

  lemma {:induction false} SumOfLengths<T>(streams: seq<seq<T>>, s: State<T>, n: nat)
    requires s.next == seq(|streams|, p => 0) && n <= |streams|
    ensures Sum(Unsents(streams, s), n) == |Flatten(streams[..n])|
  {
    if n > 0 {
      SumOfLengths(streams, s, n - 1);
      FlattenAppend(streams[..n - 1], streams[n - 1]);
      assert streams[..n - 1] + [streams[n - 1]] == streams[..n];
    }
  }

  /** Every run is over after two steps for each line and each importer, and one. */
  lemma RunsAreBounded<T>(streams: seq<seq<T>>, numImporters: nat, es: seq<Event>)
    requires ValidRun(streams, Start(streams, numImporters), es)
    ensures |es| <= 2 * |Flatten(streams)| + 2 * numImporters + 1
  {
    var s := Start(streams, numImporters);
    StartInv(streams, numImporters);
    MeasureBoundsRun(streams, s, es, multiset(Flatten(streams)));
    SumOfTwos(Works(s), numImporters);
    SumOfLengths(streams, s, |streams|);
    assert streams[..|streams|] == streams;
  }

  // ---------------------------------------------------------------- the streams of ThreadSplit

  /** What each goroutine of ThreadSplit sends: the posts of its channels, one channel after the other. */
  function Streams<T>(channels: seq<seq<T>>, numThreads: nat): (r: seq<seq<T>>)
    ensures |r| == numThreads
  {
    seq(numThreads, t requires 0 <= t < numThreads => StreamOf(channels, numThreads, t))
  }

  function StreamOf<T>(channels: seq<seq<T>>, numThreads: nat, t: nat): seq<T>
    requires t < numThreads
  {
    ThreadSplit.ThreadBounds(|channels|, numThreads, t);
    Flatten(channels[ThreadSplit.StartOf(|channels|, numThreads, t)..ThreadSplit.EndOf(|channels|, numThreads, t)])
  }

  lemma {:induction false} FlattenConcat<T>(a: seq<seq<T>>, b: seq<seq<T>>)
    ensures Flatten(a + b) == Flatten(a) + Flatten(b)
    decreases |b|
  {
    if |b| == 0 {
      assert a + b == a;
    } else {
      var front, last := b[..|b| - 1], b[|b| - 1];
      FlattenConcat(a, front);
      assert b == front + [last] && a + b == (a + front) + [last];
      FlattenAppend(a + front, last);
      FlattenAppend(front, last);
    }
  }

  lemma {:induction false} StreamsCoverFirst<T>(channels: seq<seq<T>>, numThreads: nat, n: nat)
    requires 0 < n <= numThreads
    ensures ThreadSplit.EndOf(|channels|, numThreads, n - 1) <= |channels|
    ensures Flatten(Streams(channels, numThreads)[..n])
            == Flatten(channels[..ThreadSplit.EndOf(|channels|, numThreads, n - 1)])
  {
    var ss := Streams(channels, numThreads);
    var start, end := ThreadSplit.StartOf(|channels|, numThreads, n - 1), ThreadSplit.EndOf(|channels|, numThreads, n - 1);
    ThreadSplit.ThreadBounds(|channels|, numThreads, n - 1);
    FlattenAppend(ss[..n - 1], ss[n - 1]);
    assert ss[..n - 1] + [ss[n - 1]] == ss[..n];
    FlattenConcat(channels[..start], channels[start..end]);
    assert channels[..start] + channels[start..end] == channels[..end];
    if n > 1 {
      StreamsCoverFirst(channels, numThreads, n - 1);
    } else {
      assert start == 0;
    }
  }

  /** The goroutines of ThreadSplit together send the posts of every channel, each once. */
  lemma StreamsCover<T>(channels: seq<seq<T>>, numThreads: nat)
    requires numThreads > 0
    ensures Flatten(Streams(channels, numThreads)) == Flatten(channels)
  {
    StreamsCoverFirst(channels, numThreads, numThreads);
    assert Streams(channels, numThreads)[..numThreads] == Streams(channels, numThreads);
    assert channels[..|channels|] == channels;
  }

  lemma {:induction false} FlattenSameLength<T>(channels: seq<seq<T>>, n: nat)
    requires forall c :: 0 <= c < |channels| ==> |channels[c]| == n
    ensures |Flatten(channels)| == n * |channels|
    decreases |channels|
  {
    if |channels| > 0 {
      FlattenSameLength(channels[1..], n);
    }
  }

  // ---------------------------------------------------------------- the posts of one team

  /** The number of posts of a channel. */
  function OfChannel(posts: seq<P.Post>, c: nat): nat {
    if |posts| == 0 then 0 else (if posts[0].channel == c then 1 else 0) + OfChannel(posts[1..], c)
  }

  lemma {:induction false} OfChannelConcat(a: seq<P.Post>, b: seq<P.Post>, c: nat)
    ensures OfChannel(a + b, c) == OfChannel(a, c) + OfChannel(b, c)
    decreases |a|
  {
    if |a| == 0 {
      assert a + b == b;
    } else {
      OfChannelConcat(a[1..], b, c);
      assert (a + b)[1..] == a[1..] + b;
    }
  }

  lemma OfChannelTakenOut(posts: seq<P.Post>, j: nat, c: nat)
    requires j < |posts|
    ensures OfChannel(posts, c) == (if posts[j].channel == c then 1 else 0) + OfChannel(posts[..j] + posts[j + 1..], c)
  {
    var front, back := posts[..j], posts[j + 1..];
    OfChannelConcat(front, back, c);
    OfChannelConcat(front, [posts[j]] + back, c);
    assert posts == front + ([posts[j]] + back);
    assert ([posts[j]] + back)[1..] == back;
  }

  /** Counting a channel's posts does not depend on their order. */
  lemma {:induction false} OfChannelAnyOrder(a: seq<P.Post>, b: seq<P.Post>, c: nat)
    requires multiset(a) == multiset(b)
    ensures OfChannel(a, c) == OfChannel(b, c)
    decreases |a|
  {
    assert |a| == |multiset(a)| == |multiset(b)| == |b|;
    if |a| > 0 {
      assert a[0] in multiset(b);
      var j :| 0 <= j < |b| && b[j] == a[0];
      OfChannelTakenOut(b, j, c);
      SameElementTakenOut(a, b, j);
      OfChannelAnyOrder(a[1..], b[..j] + b[j + 1..], c);
    }
  }

  lemma {:induction false} OneChannel(posts: seq<P.Post>, own: nat, c: nat)
    requires forall k :: 0 <= k < |posts| ==> posts[k].channel == own
    ensures OfChannel(posts, c) == if own == c then |posts| else 0
    decreases |posts|
  {
    if |posts| > 0 {
      OneChannel(posts[1..], own, c);
    }
  }

  /** What the loops of the team's channels send when none of them panics: channel c by the loop numbered c. */
  ghost predicate TeamPosts(setups: seq<P.Setup>, channels: seq<seq<P.Post>>, numPosts: nat) {
    && |setups| == |channels|
    && forall c :: 0 <= c < |channels| ==>
         setups[c].channelNum == c && P.IsChannel(setups[c], channels[c]) && |channels[c]| == P.PostsMade(numPosts)
  }

  lemma {:induction false} EachChannelsPosts(setups: seq<P.Setup>, channels: seq<seq<P.Post>>, numPosts: nat, n: nat, c: nat)
    requires TeamPosts(setups, channels, numPosts) && n <= |channels|
    ensures OfChannel(Flatten(channels[..n]), c) == if c < n then P.PostsMade(numPosts) else 0
  {
    hide OfChannel, Flatten, P.PostAt, P.Fails;
    if n == 0 {
      NoPostsAtAll(channels[..0], c);
    } else {
      EachChannelsPosts(setups, channels, numPosts, n - 1, c);
      FlattenAppend(channels[..n - 1], channels[n - 1]);
      assert channels[..n - 1] + [channels[n - 1]] == channels[..n];
      OfChannelConcat(Flatten(channels[..n - 1]), channels[n - 1], c);
      OwnNumber(setups[n - 1], channels[n - 1]);
      OneChannel(channels[n - 1], n - 1, c);
    }
  }

  lemma OwnNumber(s: P.Setup, posts: seq<P.Post>)
    requires P.IsChannel(s, posts)
    ensures forall k :: 0 <= k < |posts| ==> posts[k].channel == s.channelNum
  {
  }

  lemma NoPostsAtAll(none: seq<seq<P.Post>>, c: nat)
    requires |none| == 0
    ensures OfChannel(Flatten(none), c) == 0
  {
  }

  /**
   LoadPosts for one team: whatever the schedule of the four senders and four importers, once the wait is over the
   posts loaded, in whatever order the table lists them, are those of all channels, 100 * ceil(n / 100) of each.
   */
  lemma PostsConserved(setups: seq<P.Setup>, channels: seq<seq<P.Post>>, numPosts: nat, es: seq<Event>, table: seq<P.Post>)
    requires TeamPosts(setups, channels, numPosts)
    requires ValidRun(Streams(channels, 4), Start(Streams(channels, 4), 4), es)
    requires var s := Run(Streams(channels, 4), Start(Streams(channels, 4), 4), es);
             Finished(s) && multiset(table) == AllLoaded(s)
    ensures multiset(table) == multiset(Flatten(channels))
    ensures exists each: nat ::
              && numPosts <= each < numPosts + 100 && each % 100 == 0 && |table| == |channels| * each
              && forall c: nat :: OfChannel(table, c) == if c < |channels| then each else 0
  {
    hide Inv, Enabled, ValidRun, Run, AllLoaded, Streams, Flatten, OfChannel, P.IsChannel;
    EachLineLoadedOnce(Streams(channels, THREADS), CONSUMERS, es);
    StreamsCover(channels, THREADS);
    FlattenSameLength(channels, P.PostsMade(numPosts));
    assert |table| == |multiset(table)| == |multiset(Flatten(channels))| == |Flatten(channels)|;
    assert channels[..|channels|] == channels;
    forall c: nat ensures OfChannel(table, c) == if c < |channels| then P.PostsMade(numPosts) else 0 {
      OfChannelAnyOrder(table, Flatten(channels), c);
      EachChannelsPosts(setups, channels, numPosts, |channels|, c);
    }
  }
}
