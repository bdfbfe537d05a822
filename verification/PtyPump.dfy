/**
 * Streaming a terminal to a connection. A reader thread pushes each chunk of output to the ring and then
 * broadcasts it; a pump replays the ring and follows the broadcast, which drops the oldest messages of a
 * slow subscriber; the pump then goes back to the ring. Any interleaving of these steps is a run.
 */
module PtyPump {
  import Seqs
  import opened Wrappers
  import opened Bytes
  import opened Scrollback

  const PTY_OUTPUT_LAG_CAPACITY: nat := 1024

  // ------------------------------------------------------------------
  // The pump's own arithmetic
  // ------------------------------------------------------------------

  datatype Output = Output(endOffset: nat, data: seq<byte>)

  datatype Write = Wrote(payload: seq<byte>) | Skipped

  /** What the loop body does with a received chunk, and where `delivered` stands then. */
  function Receive(delivered: nat, chunk: Output): (Write, nat)
    requires |chunk.data| <= chunk.endOffset
  {
    if chunk.endOffset <= delivered then (Skipped, delivered)
    else
      var start := chunk.endOffset - |chunk.data|;
      var skip := if delivered > start then delivered - start else 0;
      (Wrote(chunk.data[skip..]), chunk.endOffset)
  }

  /** The pump task's variables, and the payloads it has written. */
  class Pump {
    var delivered: nat
    var frames: seq<seq<byte>>

    /** The replay written before the task starts; nothing is written for an empty one. */
    constructor (replay: seq<byte>, total: nat)
      ensures delivered == total && frames == if replay != [] then [replay] else []
    {
      delivered := total;
      frames := if replay != [] then [replay] else [];
    }

    method OnChunk(chunk: Output)
      requires |chunk.data| <= chunk.endOffset
      modifies this
      ensures delivered == Receive(old(delivered), chunk).1
      ensures frames == old(frames) + match Receive(old(delivered), chunk).0 case Wrote(p) => [p] case Skipped => []
    {
      if chunk.endOffset <= delivered {
        return;
      }
      var start := chunk.endOffset - |chunk.data|;
      var skip := if delivered > start then delivered - start else 0;
      frames := frames + [chunk.data[skip..]];
      delivered := chunk.endOffset;
    }

    method OnLag(ring: Scrollback)
      requires ring.Valid()
      modifies this
      ensures delivered == |ring.Stream()|
      ensures var bytes := ring.Stream()[Start(ring.State(), old(delivered))..];
              frames == old(frames) + if bytes != [] then [bytes] else []
    {
      var bytes := ring.BytesSince(delivered);
      if bytes != [] {
        frames := frames + [bytes];
      }
      delivered := ring.totalBytes;
    }
  }

  // ------------------------------------------------------------------
  // The reader thread, the broadcast and the pump
  // ------------------------------------------------------------------

  datatype Task =
    | Absent
    | Subscribed(next: nat)
    | Following(next: nat, delivered: nat)
    | Lagging(next: nat, delivered: nat)
    | Ended

  /** What came from the ring records the ring's base then; what came from the broadcast, `None`. */
  datatype Span = Span(start: nat, bytes: seq<byte>, ringBase: Option<nat>)

  /**
   * `initial` entered the ring before the reader thread started; `chunks` are what the thread has pushed,
   * and `sent` of them are broadcast. `listed` says the session is in the manager's table. `spans` are the
   * payloads written so far with the offset they start at, a replay of no bytes included (it writes nothing).
   */
  datatype World = World(initial: seq<byte>, chunks: seq<seq<byte>>, sent: nat, listed: bool, readerDone: bool,
                         task: Task, spans: seq<Span>)

  datatype Event =
    | Pushes(data: seq<byte>)
    | Broadcasts
    | ReaderEnds
    | Unlists
    | Subscribes
    | Replays(written: bool)
    | Receives(written: bool)
    | Lags
    | Resyncs(written: bool)
    | Closes
    | Aborts

  function StreamOf(w: World): seq<byte> {
    w.initial + Concat(w.chunks)
  }

  function RingNow(w: World): Ring {
    RingOf(PTY_SCROLLBACK_LINES, 0, StreamOf(w))
  }

  /** The offset chunk `k` starts at, which is where the chunks before it end. */
  function EndOf(w: World, k: nat): nat
    requires k <= |w.chunks|
  {
    |w.initial| + |Concat(w.chunks[..k])|
  }

  function Message(w: World, k: nat): (o: Output)
    requires k < |w.chunks|
    ensures |o.data| <= o.endOffset
  {
    NextEnd(w, k);
    Output(EndOf(w, k + 1), w.chunks[k])
  }

  lemma NextEnd(w: World, k: nat)
    requires k < |w.chunks|
    ensures EndOf(w, k + 1) == EndOf(w, k) + |w.chunks[k]|
  {
    assert w.chunks[..k + 1] == w.chunks[..k] + [w.chunks[k]];
    ConcatSnoc(w.chunks[..k], w.chunks[k]);
  }

  /**
   * Subscribing and replaying hold the manager's lock together, so the session stays listed between them;
   * the reader thread needs no such lock.
   */
  predicate Enabled(w: World, e: Event) {
    match e
    case Pushes(data) => data != [] && w.sent == |w.chunks| && !w.readerDone
    case Broadcasts => w.sent < |w.chunks|
    case ReaderEnds => w.sent == |w.chunks|
    case Unlists => w.listed && !w.task.Subscribed?
    case Subscribes => w.task.Absent? && w.listed
    case Replays(_) => w.task.Subscribed?
    case Receives(_) => w.task.Following? && w.task.next < w.sent <= w.task.next + PTY_OUTPUT_LAG_CAPACITY
                        && w.sent <= |w.chunks|
    case Lags => w.task.Following? && w.task.next + PTY_OUTPUT_LAG_CAPACITY < w.sent
    case Resyncs(_) => w.task.Lagging?
    case Closes => w.task.Following? && w.task.next == w.sent && !w.listed && w.readerDone
    case Aborts => w.task.Following? || w.task.Lagging?
  }

  /** Everything the ring has from `delivered` on. */
  function Snapshot(w: World, delivered: nat): (s: Span)
    requires Start(RingNow(w), delivered) <= |StreamOf(w)|
  {
    var start := Start(RingNow(w), delivered);
    Span(start, StreamOf(w)[start..], Some(RingNow(w).baseOffset))
  }

  lemma StartInStream(w: World, delivered: nat)
    ensures Start(RingNow(w), delivered) <= |StreamOf(w)| == RingNow(w).totalBytes
    ensures RingNow(w).baseOffset <= |StreamOf(w)|
  {
    RingHoldsTail(PTY_SCROLLBACK_LINES, 0, StreamOf(w));
  }

  /** A replay from `delivered`: the pump goes on if there was nothing to write or the write succeeded. */
  function CatchUp(w: World, next: nat, delivered: nat, written: bool): World {
    StartInStream(w, delivered);
    var s := Snapshot(w, delivered);
    if s.bytes != [] && !written then w.(task := Ended)
    else w.(task := Following(next, |StreamOf(w)|), spans := w.spans + [s])
  }

  function Step(w: World, e: Event): World {
    if !Enabled(w, e) then w
    else
      match e
      case Pushes(data) => w.(chunks := w.chunks + [data])
      case Broadcasts => w.(sent := w.sent + 1)
      case ReaderEnds => w.(readerDone := true)
      case Unlists => w.(listed := false)
      case Subscribes => w.(task := Subscribed(w.sent))
      case Replays(written) => CatchUp(w, w.task.next, 0, written)
      case Receives(written) =>
        var chunk := Message(w, w.task.next);
        var (write, delivered) := Receive(w.task.delivered, chunk);
        if write.Skipped? then w.(task := Following(w.task.next + 1, delivered))
        else if !written then w.(task := Ended)
        else w.(task := Following(w.task.next + 1, delivered),
                spans := w.spans + [Span(chunk.endOffset - |write.payload|, write.payload, None)])
      case Lags => w.(task := Lagging(w.sent - PTY_OUTPUT_LAG_CAPACITY, w.task.delivered))
      case Resyncs(written) =>
        if !w.listed then w.(task := Ended) else CatchUp(w, w.task.next, w.task.delivered, written)
      case Closes => w.(task := Ended)
      case Aborts => w.(task := Ended)
  }

  function Launched(initial: seq<byte>): World {
    World(initial, [], 0, true, false, Absent, [])
  }

  function Run(initial: seq<byte>, events: seq<Event>): World {
    if events == [] then Launched(initial)
    else Step(Run(initial, events[..|events| - 1]), events[|events| - 1])
  }

  // ------------------------------------------------------------------
  // What every step keeps
  // ------------------------------------------------------------------

  function SpansEnd(spans: seq<Span>): nat {
    if spans == [] then 0 else spans[|spans| - 1].start + |spans[|spans| - 1].bytes|
  }

  /**
   * Each span is the stream's bytes at its offset. One from the broadcast starts where the last one ended;
   * one from the ring does too, unless the ring's base was already beyond that.
   */
  predicate Linked(end: nat, s: Span, stream: seq<byte>) {
    && s.start + |s.bytes| <= |stream| && stream[s.start..s.start + |s.bytes|] == s.bytes
    && match s.ringBase
       case None => s.start == end
       case Some(base) => s.start == if base > end then base else end
  }

  predicate Chained(spans: seq<Span>, stream: seq<byte>) {
    spans == [] ||
    (Linked(SpansEnd(spans[..|spans| - 1]), spans[|spans| - 1], stream) && Chained(spans[..|spans| - 1], stream))
  }

  /** `delivered` is where chunk `d` starts, and the broadcast is not ahead of it. */
  predicate AtChunk(w: World, d: nat, next: nat, delivered: nat) {
    next <= d <= |w.chunks| && delivered == EndOf(w, d)
  }

  ghost predicate TaskInv(w: World) {
    match w.task
    case Absent => w.spans == []
    case Subscribed(next) => w.spans == [] && next <= w.sent
    case Following(next, delivered) =>
      next <= w.sent && SpansEnd(w.spans) == delivered && exists d :: AtChunk(w, d, next, delivered)
    case Lagging(next, delivered) =>
      next <= w.sent && SpansEnd(w.spans) == delivered && exists d :: AtChunk(w, d, 0, delivered)
    case Ended => true
  }

  ghost predicate Inv(w: World) {
    && w.sent <= |w.chunks| <= w.sent + 1
    && (forall i | 0 <= i < |w.chunks| :: w.chunks[i] != [])
    && Chained(w.spans, StreamOf(w))
    && TaskInv(w)
  }

  lemma {:induction false} ChainedGrows(spans: seq<Span>, stream: seq<byte>, more: seq<byte>)
    requires Chained(spans, stream)
    ensures Chained(spans, stream + more)
  {
    if spans != [] {
      var s := spans[|spans| - 1];
      ChainedGrows(spans[..|spans| - 1], stream, more);
      assert (stream + more)[s.start..s.start + |s.bytes|] == stream[s.start..s.start + |s.bytes|];
    }
  }

  lemma ChainedSnoc(spans: seq<Span>, s: Span, stream: seq<byte>)
    requires Chained(spans, stream) && Linked(SpansEnd(spans), s, stream)
    ensures Chained(spans + [s], stream) && SpansEnd(spans + [s]) == s.start + |s.bytes|
  {
    assert (spans + [s])[..|spans|] == spans;
  }

  lemma {:induction false} EndsIncrease(w: World, j: nat, k: nat)
    requires j <= k <= |w.chunks| && forall i | 0 <= i < |w.chunks| :: w.chunks[i] != []
    ensures EndOf(w, j) <= EndOf(w, k) && (j < k ==> EndOf(w, j) < EndOf(w, k))
    ensures EndOf(w, |w.chunks|) == |StreamOf(w)|
    decreases k - j
  {
    assert w.chunks[..|w.chunks|] == w.chunks;
    if j < k {
      NextEnd(w, k - 1);
      EndsIncrease(w, j, k - 1);
    }
  }

  lemma ChunkInStream(w: World, k: nat)
    requires k < |w.chunks|
    ensures EndOf(w, k) + |w.chunks[k]| <= |StreamOf(w)|
    ensures StreamOf(w)[EndOf(w, k)..EndOf(w, k) + |w.chunks[k]|] == w.chunks[k]
  {
    var before, c, after := Concat(w.chunks[..k]), w.chunks[k], Concat(w.chunks[k + 1..]);
    assert w.chunks == w.chunks[..k] + w.chunks[k..];
    ConcatBoth(w.chunks[..k], w.chunks[k..]);
    assert w.chunks[k..][1..] == w.chunks[k + 1..];
    assert Concat(w.chunks[k..]) == c + after;
    assert StreamOf(w) == (w.initial + before) + (c + after);
    SliceOfJoin(w.initial + before, c, after);
  }

  lemma SliceOfJoin(a: seq<byte>, b: seq<byte>, c: seq<byte>)
    ensures (a + (b + c))[|a|..|a| + |b|] == b
  {
  }

  /** A received chunk is either covered already or written whole: there is never anything to trim. */
  lemma ReceiveWhole(w: World, d: nat)
    requires Inv(w) && w.task.Following? && w.task.next < |w.chunks| && AtChunk(w, d, w.task.next, w.task.delivered)
    ensures var (next, delivered) := (w.task.next, w.task.delivered);
            Receive(delivered, Message(w, next))
            == if next < d then (Skipped, delivered) else (Wrote(w.chunks[next]), EndOf(w, next + 1))
  {
    var next, delivered := w.task.next, w.task.delivered;
    NextEnd(w, next);
    if next < d {
      EndsIncrease(w, next + 1, d);
    } else {
      assert w.chunks[next] != [];
      assert w.chunks[next][0..] == w.chunks[next];
    }
  }

  lemma PushKeeps(w: World, data: seq<byte>)
    requires Inv(w) && Enabled(w, Pushes(data))
    ensures Inv(Step(w, Pushes(data)))
  {
    var w' := Step(w, Pushes(data));
    ConcatSnoc(w.chunks, data);
    Seqs.Regroup(w.initial, Concat(w.chunks), data);
    ChainedGrows(w.spans, StreamOf(w), data);
    forall d: nat, next, delivered | AtChunk(w, d, next, delivered)
      ensures AtChunk(w', d, next, delivered)
    {
      assert w'.chunks[..d] == w.chunks[..d];
    }
    assert StreamOf(w') == StreamOf(w) + data;
    assert TaskInv(w');
  }

  lemma NextFollows(w: World, next: nat)
    requires Inv(w) && next < |w.chunks| && SpansEnd(w.spans) == EndOf(w, next)
    ensures var spans := w.spans + [Span(EndOf(w, next), w.chunks[next], None)];
            Chained(spans, StreamOf(w)) && SpansEnd(spans) == EndOf(w, next + 1)
  {
    hide Chained, StreamOf;
    ChunkInStream(w, next);
    ChainedSnoc(w.spans, Span(EndOf(w, next), w.chunks[next], None), StreamOf(w));
    NextEnd(w, next);
  }

  lemma SameStream(w: World, w': World)
    requires w'.initial == w.initial && w'.chunks == w.chunks
    ensures StreamOf(w') == StreamOf(w)
    ensures forall k | 0 <= k <= |w.chunks| :: EndOf(w', k) == EndOf(w, k)
  {
  }

  /** The step, with the chunk's offsets worked out. */
  lemma ReceiveStep(w: World, d: nat, written: bool)
    requires Inv(w) && Enabled(w, Receives(written)) && AtChunk(w, d, w.task.next, w.task.delivered)
    ensures var next := w.task.next;
            Step(w, Receives(written))
            == if next < d then w.(task := Following(next + 1, w.task.delivered))
               else if written then
                 w.(task := Following(next + 1, EndOf(w, next + 1)),
                    spans := w.spans + [Span(EndOf(w, next), w.chunks[next], None)])
               else w.(task := Ended)
  {
    ReceiveWhole(w, d);
    NextEnd(w, w.task.next);
    hide Chained, Receive, EndOf;
  }

  /** Moving on to a later chunk with the spans that reach it. */
  lemma AdvanceKeeps(w: World, next: nat, d: nat, delivered: nat, spans: seq<Span>)
    requires Inv(w) && next <= w.sent && AtChunk(w, d, next, delivered)
    requires Chained(spans, StreamOf(w)) && SpansEnd(spans) == delivered
    ensures Inv(w.(task := Following(next, delivered), spans := spans))
  {
    var w' := w.(task := Following(next, delivered), spans := spans);
    SameStream(w, w');
    hide Chained, StreamOf, EndOf, SpansEnd;
    assert AtChunk(w', d, next, delivered);
  }

  /** What a replay adds: the stream's bytes up to its end. */
  lemma SnapshotLinks(w: World, delivered: nat)
    requires Chained(w.spans, StreamOf(w)) && SpansEnd(w.spans) == delivered <= |StreamOf(w)|
    ensures Start(RingNow(w), delivered) <= |StreamOf(w)|
    ensures var spans := w.spans + [Snapshot(w, delivered)];
            Chained(spans, StreamOf(w)) && SpansEnd(spans) == |StreamOf(w)|
  {
    hide Chained, StreamOf, RingNow;
    StartInStream(w, delivered);
    var stream, s := StreamOf(w), Snapshot(w, delivered);
    assert s.start + |s.bytes| == |stream| && stream[s.start..|stream|] == s.bytes;
    ChainedSnoc(w.spans, s, stream);
  }

  lemma CatchUpKeeps(w: World, next: nat, delivered: nat, written: bool)
    requires Inv(w) && next <= w.sent && SpansEnd(w.spans) == delivered <= |StreamOf(w)|
    ensures Inv(CatchUp(w, next, delivered, written))
  {
    hide Chained, StreamOf, EndOf, SpansEnd, RingNow, Snapshot;
    SnapshotLinks(w, delivered);
    EndsIncrease(w, |w.chunks|, |w.chunks|);
    var s := Snapshot(w, delivered);
    if s.bytes != [] && !written {
      SameStream(w, w.(task := Ended));
    } else {
      assert AtChunk(w, |w.chunks|, next, |StreamOf(w)|);
      AdvanceKeeps(w, next, |w.chunks|, |StreamOf(w)|, w.spans + [s]);
    }
  }

  lemma ReceiveKeeps(w: World, written: bool)
    requires Inv(w) && Enabled(w, Receives(written))
    ensures Inv(Step(w, Receives(written)))
  {
    hide Chained, StreamOf, EndOf, SpansEnd, Step, Receive;
    var next, delivered := w.task.next, w.task.delivered;
    var d :| AtChunk(w, d, next, delivered);
    ReceiveStep(w, d, written);
    if next < d {
      AdvanceKeeps(w, next + 1, d, delivered, w.spans);
      assert w.(task := Following(next + 1, delivered)) == w.(task := Following(next + 1, delivered), spans := w.spans);
    } else if written {
      NextFollows(w, next);
      AdvanceKeeps(w, next + 1, next + 1, EndOf(w, next + 1), w.spans + [Span(EndOf(w, next), w.chunks[next], None)]);
    } else {
      SameStream(w, w.(task := Ended));
    }
  }

  lemma DeliveredInStream(w: World)
    requires Inv(w) && (w.task.Following? || w.task.Lagging?)
    ensures w.task.delivered <= |StreamOf(w)|
  {
    var d: nat :| AtChunk(w, d, if w.task.Following? then w.task.next else 0, w.task.delivered);
    EndsIncrease(w, d, |w.chunks|);
  }

  lemma LagKeeps(w: World)
    requires Inv(w) && Enabled(w, Lags)
    ensures Inv(Step(w, Lags))
  {
    var w' := Step(w, Lags);
    SameStream(w, w');
    hide Chained, StreamOf, EndOf, SpansEnd;
    var d :| AtChunk(w, d, w.task.next, w.task.delivered);
    assert AtChunk(w', d, 0, w.task.delivered);
  }

  lemma StepKeeps(w: World, e: Event)
    requires Inv(w)
    ensures Inv(Step(w, e))
  {
    hide Chained, StreamOf, EndOf, AtChunk, CatchUp, Receive, Message;
    if Enabled(w, e) {
      var w' := Step(w, e);
      match e
      case Pushes(data) => PushKeeps(w, data);
      case Replays(written) => CatchUpKeeps(w, w.task.next, 0, written);
      case Receives(written) => ReceiveKeeps(w, written);
      case Lags => LagKeeps(w);
      case Resyncs(written) =>
        if w.listed {
          DeliveredInStream(w);
          CatchUpKeeps(w, w.task.next, w.task.delivered, written);
        } else {
          SameDelivery(w, w');
        }
      case _ => SameDelivery(w, w');
    }
  }

  lemma SameDelivery(w: World, w': World)
    requires Inv(w) && w'.initial == w.initial && w'.chunks == w.chunks && w'.spans == w.spans
    requires w.sent <= w'.sent <= |w.chunks|
    requires w'.task == w.task || w'.task.Ended? || (w.task.Absent? && w'.task == Subscribed(w.sent))
    ensures Inv(w')
  {
    forall d: nat, next, delivered | AtChunk(w, d, next, delivered)
      ensures AtChunk(w', d, next, delivered)
    {
    }
  }

  lemma {:induction false} RunsKeep(initial: seq<byte>, events: seq<Event>)
    ensures Inv(Run(initial, events))
  {
    if events != [] {
      RunsKeep(initial, events[..|events| - 1]);
      StepKeeps(Run(initial, events[..|events| - 1]), events[|events| - 1]);
    }
  }

  // ------------------------------------------------------------------
  // What the connection gets
  // ------------------------------------------------------------------

  function End(s: Span): nat {
    s.start + |s.bytes|
  }

  /** Offset `n` is in one of the spans. */
  ghost predicate Covered(spans: seq<Span>, n: nat) {
    exists s :: s in spans && s.start <= n < End(s)
  }

  /** Offset `n` was skipped by one of the replays, and had left the ring by then: the replay starts at its base. */
  ghost predicate EvictedAtReplay(spans: seq<Span>, n: nat) {
    exists i :: 0 <= i < |spans| && SpansEnd(spans[..i]) <= n < spans[i].start
                && spans[i].ringBase == Some(spans[i].start)
  }

  lemma {:induction false} ChainedBefore(spans: seq<Span>, stream: seq<byte>, k: nat)
    requires k <= |spans| && Chained(spans, stream)
    ensures Chained(spans[..k], stream)
  {
    if k < |spans| {
      ChainedBefore(spans[..|spans| - 1], stream, k);
      assert spans[..|spans| - 1][..k] == spans[..k];
    } else {
      assert spans[..k] == spans;
    }
  }

  lemma {:induction false} SpanInPlace(spans: seq<Span>, stream: seq<byte>, i: nat)
    requires i < |spans| && Chained(spans, stream)
    ensures spans[i].start <= End(spans[i]) <= SpansEnd(spans) <= |stream|
    ensures stream[spans[i].start..End(spans[i])] == spans[i].bytes
  {
    if i < |spans| - 1 {
      SpanInPlace(spans[..|spans| - 1], stream, i);
    }
  }

  lemma SpansInOrder(spans: seq<Span>, stream: seq<byte>, i: nat, j: nat)
    requires i < j < |spans| && Chained(spans, stream)
    ensures End(spans[i]) <= spans[j].start
  {
    ChainedBefore(spans, stream, j + 1);
    var upTo := spans[..j + 1];
    assert upTo[..|upTo| - 1] == spans[..j];
    SpanInPlace(spans[..j], stream, i);
  }

  lemma GapIsEviction(spans: seq<Span>, stream: seq<byte>, i: nat)
    requires i < |spans| && Chained(spans, stream) && spans[i].start != SpansEnd(spans[..i])
    ensures spans[i].ringBase == Some(spans[i].start) && SpansEnd(spans[..i]) < spans[i].start
  {
    ChainedBefore(spans, stream, i + 1);
    assert spans[..i + 1][..i] == spans[..i];
  }

  lemma StaysExplained(rest: seq<Span>, last: Span, n: nat)
    requires Covered(rest, n) || EvictedAtReplay(rest, n)
    ensures Covered(rest + [last], n) || EvictedAtReplay(rest + [last], n)
  {
    hide SpansEnd, End;
    var spans := rest + [last];
    if s :| s in rest && s.start <= n < End(s) {
      assert s in spans;
    } else {
      var i :| 0 <= i < |rest| && SpansEnd(rest[..i]) <= n < rest[i].start && rest[i].ringBase == Some(rest[i].start);
      assert rest[..i] == spans[..i] && rest[i] == spans[i];
    }
  }

  lemma {:induction false} MissingWasEvicted(spans: seq<Span>, stream: seq<byte>, n: nat)
    requires Chained(spans, stream) && n < SpansEnd(spans)
    ensures Covered(spans, n) || EvictedAtReplay(spans, n)
  {
    if spans != [] {
      var rest, last := spans[..|spans| - 1], spans[|spans| - 1];
      assert spans == rest + [last];
      if n < SpansEnd(rest) {
        MissingWasEvicted(rest, stream, n);
        StaysExplained(rest, last, n);
      } else if n < last.start {
        GapIsEviction(spans, stream, |rest|);
      } else {
        assert last in spans && n < End(last);
      }
    }
  }

  /** A span from the ring was read at some moment of the run: from the base the ring had then to the stream's end. */
  ghost predicate ReadInRun(initial: seq<byte>, events: seq<Event>, s: Span) {
    exists k :: 0 <= k <= |events| && ReadThen(Run(initial, events[..k]), s)
  }

  ghost predicate ReadThen(w: World, s: Span) {
    s.ringBase == Some(RingNow(w).baseOffset) && End(s) == |StreamOf(w)|
  }

  /** A step adds a span from the broadcast, or one read from the ring as it is. */
  lemma StepReads(w: World, e: Event, s: Span)
    requires s in Step(w, e).spans && s !in w.spans && s.ringBase.Some?
    ensures ReadThen(w, s)
  {
    hide StreamOf, RingNow, Receive, Message;
    if e.Replays? {
      StartInStream(w, 0);
    } else if e.Resyncs? {
      StartInStream(w, w.task.delivered);
    }
  }

  lemma {:induction false} SpansWereRead(initial: seq<byte>, events: seq<Event>, s: Span)
    requires s in Run(initial, events).spans && s.ringBase.Some?
    ensures ReadInRun(initial, events, s)
  {
    var n := |events| - 1;
    if s in Run(initial, events[..n]).spans {
      SpansWereRead(initial, events[..n], s);
      var k :| 0 <= k <= n && ReadThen(Run(initial, events[..n][..k]), s);
      assert events[..n][..k] == events[..k];
    } else {
      StepReads(Run(initial, events[..n]), events[n], s);
    }
  }

  /**
   * Delivery, for every interleaving: what is written is the stream's bytes, in order and none twice. Where one
   * payload does not start at the end of the one before it, it is a replay that starts at the base the ring had when
   * it was read: what it skips, and nothing else is ever skipped, had left the ring by then. And a replay goes on to
   * where the stream was at that moment.
   */
  lemma DeliversInOrder(initial: seq<byte>, events: seq<Event>)
    ensures var w := Run(initial, events);
            && (forall s | s in w.spans :: End(s) <= |StreamOf(w)| && StreamOf(w)[s.start..End(s)] == s.bytes)
            && (forall i, j | 0 <= i < j < |w.spans| :: End(w.spans[i]) <= w.spans[j].start)
            && (forall i | 0 <= i < |w.spans| && w.spans[i].start != SpansEnd(w.spans[..i]) ::
                  w.spans[i].ringBase == Some(w.spans[i].start) && SpansEnd(w.spans[..i]) < w.spans[i].start)
            && (forall n: nat | n < SpansEnd(w.spans) :: Covered(w.spans, n) || EvictedAtReplay(w.spans, n))
            && (forall s | s in w.spans && s.ringBase.Some? :: ReadInRun(initial, events, s))
  {
    var w := Run(initial, events);
    RunsKeep(initial, events);
    var stream := StreamOf(w);
    assert Chained(w.spans, stream);
    hide *;
    InPlaceAndOrder(w.spans, stream);
    forall i | 0 <= i < |w.spans| && w.spans[i].start != SpansEnd(w.spans[..i])
      ensures w.spans[i].ringBase == Some(w.spans[i].start) && SpansEnd(w.spans[..i]) < w.spans[i].start
    {
      GapIsEviction(w.spans, stream, i);
    }
    forall n: nat | n < SpansEnd(w.spans)
      ensures Covered(w.spans, n) || EvictedAtReplay(w.spans, n)
    {
      MissingWasEvicted(w.spans, stream, n);
    }
    forall s | s in w.spans && s.ringBase.Some?
      ensures ReadInRun(initial, events, s)
    {
      SpansWereRead(initial, events, s);
    }
  }

  lemma InPlaceAndOrder(spans: seq<Span>, stream: seq<byte>)
    requires Chained(spans, stream)
    ensures forall s | s in spans :: End(s) <= |stream| && stream[s.start..End(s)] == s.bytes
    ensures forall i, j | 0 <= i < j < |spans| :: End(spans[i]) <= spans[j].start
  {
    hide Chained, End;
    forall i | 0 <= i < |spans|
      ensures End(spans[i]) <= |stream| && spans[i].start <= End(spans[i])
      ensures stream[spans[i].start..End(spans[i])] == spans[i].bytes
    {
      SpanInPlace(spans, stream, i);
    }
    forall i, j | 0 <= i < j < |spans|
      ensures End(spans[i]) <= spans[j].start
    {
      SpansInOrder(spans, stream, i, j);
    }
  }

  /** The straddle trim never trims: in every run a chunk is written whole or not at all. */
  lemma NothingToTrim(initial: seq<byte>, events: seq<Event>, written: bool)
    requires Enabled(Run(initial, events), Receives(written))
    ensures var w := Run(initial, events);
            var chunk := Message(w, w.task.next);
            || Receive(w.task.delivered, chunk) == (Skipped, w.task.delivered)
            || (Receive(w.task.delivered, chunk) == (Wrote(chunk.data), chunk.endOffset)
                && w.task.delivered == chunk.endOffset - |chunk.data|)
  {
    RunsKeep(initial, events);
    TrimsNothing(Run(initial, events), written);
  }

  lemma TrimsNothing(w: World, written: bool)
    requires Inv(w) && Enabled(w, Receives(written))
    ensures var chunk := Message(w, w.task.next);
            || Receive(w.task.delivered, chunk) == (Skipped, w.task.delivered)
            || (Receive(w.task.delivered, chunk) == (Wrote(chunk.data), chunk.endOffset)
                && w.task.delivered == chunk.endOffset - |chunk.data|)
  {
    var d :| AtChunk(w, d, w.task.next, w.task.delivered);
    ReceiveWhole(w, d);
    NextEnd(w, w.task.next);
    hide Chained;
  }

  /** A pump with nothing left to receive, of a reader with nothing left to send, has reached the end of the stream. */
  lemma QuietMeansCaughtUp(initial: seq<byte>, events: seq<Event>)
    ensures var w := Run(initial, events);
            w.task.Following? && w.task.next == w.sent == |w.chunks| ==>
              w.task.delivered == SpansEnd(w.spans) == |StreamOf(w)|
  {
    var w := Run(initial, events);
    RunsKeep(initial, events);
    if w.task.Following? && w.task.next == w.sent == |w.chunks| {
      var d :| AtChunk(w, d, w.task.next, w.task.delivered);
      EndsIncrease(w, d, |w.chunks|);
    }
  }

  lemma CatchUpKeepsSent(w: World, next: nat, delivered: nat, written: bool)
    ensures var w' := CatchUp(w, next, delivered, written);
            w'.sent == w.sent && w'.chunks == w.chunks && w'.readerDone == w.readerDone
  {
    hide Snapshot, RingNow, StreamOf;
  }

  lemma StepKeepsSent(w: World, e: Event)
    requires w.readerDone ==> w.sent == |w.chunks|
    ensures var w' := Step(w, e); w'.readerDone ==> w'.sent == |w'.chunks|
  {
    hide CatchUp, Message, Receive;
    if w.task.Subscribed? {
      CatchUpKeepsSent(w, w.task.next, 0, e.Replays? && e.written);
    } else if w.task.Lagging? {
      CatchUpKeepsSent(w, w.task.next, w.task.delivered, e.Resyncs? && e.written);
    }
  }

  lemma {:induction false} DoneMeansSent(initial: seq<byte>, events: seq<Event>)
    ensures var w := Run(initial, events); w.readerDone ==> w.sent == |w.chunks|
  {
    if events != [] {
      DoneMeansSent(initial, events[..|events| - 1]);
      hide Step;
      StepKeepsSent(Run(initial, events[..|events| - 1]), events[|events| - 1]);
    }
  }

  /** So a pump that ends because the broadcast has closed has delivered to the very end. */
  lemma ClosesWhenAllIsDelivered(initial: seq<byte>, events: seq<Event>)
    requires Enabled(Run(initial, events), Closes)
    ensures var w := Run(initial, events); w.task.delivered == SpansEnd(w.spans) == |StreamOf(w)|
  {
    DoneMeansSent(initial, events);
    QuietMeansCaughtUp(initial, events);
    hide Run, StreamOf, SpansEnd;
  }

  /** No replay after the first found its place evicted. */
  ghost predicate NoneLost(spans: seq<Span>) {
    forall i | 0 < i < |spans| && spans[i].ringBase.Some? :: spans[i].ringBase.value <= SpansEnd(spans[..i])
  }

  function Payloads(spans: seq<Span>): seq<byte> {
    if spans == [] then [] else Payloads(spans[..|spans| - 1]) + spans[|spans| - 1].bytes
  }

  lemma {:induction false} NoneLostIsContiguous(spans: seq<Span>, stream: seq<byte>)
    requires spans != [] && Chained(spans, stream) && NoneLost(spans)
    ensures spans[0].start <= SpansEnd(spans) <= |stream|
    ensures Payloads(spans) == stream[spans[0].start..SpansEnd(spans)]
  {
    var n := |spans| - 1;
    var rest, last := spans[..n], spans[n];
    assert Linked(SpansEnd(rest), last, stream) && Payloads(spans) == Payloads(rest) + last.bytes;
    if n > 0 {
      assert last.start == SpansEnd(rest);
      NoneLostBefore(spans);
      NoneLostIsContiguous(rest, stream);
      hide *;
      JoinSlices(stream, spans[0].start, last.start, last.start + |last.bytes|);
    } else {
      assert Payloads(rest) == [];
    }
  }

  lemma NoneLostBefore(spans: seq<Span>)
    requires spans != [] && NoneLost(spans)
    ensures NoneLost(spans[..|spans| - 1])
  {
    var rest := spans[..|spans| - 1];
    assert forall i | 0 <= i < |rest| :: rest[..i] == spans[..i];
  }

  lemma JoinSlices(stream: seq<byte>, a: nat, b: nat, c: nat)
    requires a <= b <= c <= |stream|
    ensures stream[a..b] + stream[b..c] == stream[a..c]
  {
  }

  /**
   * However often the pump lagged, as long as the ring still held its place each time, the concatenated
   * payloads are one stretch of the stream, from the first byte of the first replay on.
   */
  lemma DeliversEverything(initial: seq<byte>, events: seq<Event>)
    requires var spans := Run(initial, events).spans;
             spans != [] && NoneLost(spans)
    ensures var w := Run(initial, events);
            && w.spans[0].start <= SpansEnd(w.spans) <= |StreamOf(w)|
            && Payloads(w.spans) == StreamOf(w)[w.spans[0].start..SpansEnd(w.spans)]
  {
    var w := Run(initial, events);
    RunsKeep(initial, events);
    NoneLostIsContiguous(w.spans, StreamOf(w));
  }
}
