/**
 * Frames on the mux: a length, a channel name and a payload; and the names of channels. What is written is
 * what is read, frame by frame, however many follow one another.
 */
module MuxFrames {
  import opened Wrappers
  import opened Bytes
  import opened Numbers

  const MAX_FRAME_LEN: nat := 16 * 1024 * 1024
  const MAX_CHANNEL_LEN: nat := 65535

  datatype Frame = Frame(channel: seq<byte>, payload: seq<byte>)

  /** Which byte strings are UTF-8. */
  type Utf8 = seq<byte> -> bool

  // ------------------------------------------------------------------
  // Big-endian integers
  // ------------------------------------------------------------------

  function Be16(n: u16): (s: seq<byte>)
    ensures |s| == 2
  {
    [n / 256, n % 256]
  }

  function Be32(n: u32): (s: seq<byte>)
    ensures |s| == 4
  {
    Be16(n / 0x1_0000) + Be16(n % 0x1_0000)
  }

  function Of16(s: seq<byte>): u16
    requires |s| == 2
  {
    var high: nat, low: nat := s[0], s[1];
    high * 256 + low
  }

  function Of32(s: seq<byte>): u32
    requires |s| == 4
  {
    var high: nat, low: nat := Of16(s[..2]), Of16(s[2..]);
    high * 0x1_0000 + low
  }

  lemma Inverse16(n: u16, s: seq<byte>)
    requires |s| == 2
    ensures s == Be16(n) <==> Of16(s) == n
  {
  }

  lemma Inverse32(n: u32, s: seq<byte>)
    requires |s| == 4
    ensures s == Be32(n) <==> Of32(s) == n
  {
    Inverse16(n / 0x1_0000, s[..2]);
    Inverse16(n % 0x1_0000, s[2..]);
    assert s == s[..2] + s[2..];
    hide Be16, Of16;
    assert Be32(n)[..2] == Be16(n / 0x1_0000) && Be32(n)[2..] == Be16(n % 0x1_0000);
  }

  // ------------------------------------------------------------------
  // One frame
  // ------------------------------------------------------------------

  datatype WriteError = ChannelTooLong | FrameTooLong

  datatype ReadError = LengthOutOfBounds | CutShort | ChannelTooLongForFrame | NotUtf8

  /** `Ended` is the clean end of the stream. */
  datatype ReadOutcome = Ended | Got(frame: Frame, rest: seq<byte>) | Bad(error: ReadError)

  predicate Writable(f: Frame) {
    |f.channel| <= MAX_CHANNEL_LEN && 2 + |f.channel| + |f.payload| <= MAX_FRAME_LEN
  }

  function Body(f: Frame): seq<byte>
    requires Writable(f)
  {
    Be16(|f.channel|) + (f.channel + f.payload)
  }

  function Wire(f: Frame): seq<byte>
    requires Writable(f)
  {
    Be32(2 + |f.channel| + |f.payload|) + Body(f)
  }

  function ReadBody(utf8: Utf8, body: seq<byte>, rest: seq<byte>): ReadOutcome
    requires |body| >= 2
  {
    var channelLen := Of16(body[..2]);
    if 2 + channelLen > |body| then Bad(ChannelTooLongForFrame)
    else if !utf8(body[2..2 + channelLen]) then Bad(NotUtf8)
    else Got(Frame(body[2..2 + channelLen], body[2 + channelLen..]), rest)
  }

  /** `read_frame` on the bytes still to come. */
  function Read(utf8: Utf8, s: seq<byte>): ReadOutcome {
    if |s| < 4 then Ended
    else
      var total := Of32(s[..4]);
      if !(2 <= total <= MAX_FRAME_LEN) then Bad(LengthOutOfBounds)
      else if |s| < 4 + total then Bad(CutShort)
      else ReadBody(utf8, s[4..4 + total], s[4 + total..])
  }

  /** What a read leaves to be read: it takes the length, and then the whole frame or all there is of it. */
  function Unread(s: seq<byte>): seq<byte> {
    if |s| < 4 then []
    else
      var total := Of32(s[..4]);
      if !(2 <= total <= MAX_FRAME_LEN) then s[4..] else if |s| < 4 + total then [] else s[4 + total..]
  }

  /** A whole frame, or a length that no frame has, is there to be read. */
  predicate Ready(s: seq<byte>) {
    |s| >= 4 && (var total := Of32(s[..4]); 2 <= total <= MAX_FRAME_LEN ==> |s| >= 4 + total)
  }

  /** The two ends of one direction of a connection: bytes written and not yet read, and whether more can come. */
  class Pipe {
    var bytes: seq<byte>
    var closed: bool

    constructor ()
      ensures bytes == [] && !closed
    {
      bytes, closed := [], false;
    }

    method Close()
      modifies this`closed
      ensures closed
    {
      closed := true;
    }

    /** `write_frame`: refused before anything is written, or written whole. */
    method WriteFrame(f: Frame) returns (r: Result<(), WriteError>)
      modifies this`bytes
      ensures r.Ok? <==> Writable(f)
      ensures bytes == old(bytes) + if r.Ok? then Wire(f) else []
      ensures r == Err(ChannelTooLong) <==> |f.channel| > MAX_CHANNEL_LEN
    {
      if |f.channel| > MAX_CHANNEL_LEN {
        return Err(ChannelTooLong);
      }
      var total := 2 + |f.channel| + |f.payload|;
      if total > MAX_FRAME_LEN {
        return Err(FrameTooLong);
      }
      ghost var before := bytes;
      bytes := bytes + Be32(total);
      bytes := bytes + Be16(|f.channel|);
      bytes := bytes + f.channel;
      bytes := bytes + f.payload;
      Parts(before, Be32(total), Be16(|f.channel|), f.channel, f.payload);
      r := Ok(());
    }

    /**
     * `read_frame`: takes one frame off. `None` is for a read that is still waiting: too little is there, and more
     * can come.
     */
    method ReadFrame(utf8: Utf8) returns (answer: Option<Result<Option<Frame>, ReadError>>)
      modifies this`bytes
      ensures answer.None? <==> !old(closed) && !Ready(old(bytes))
      ensures answer.None? ==> bytes == old(bytes)
      ensures answer.Some? ==>
                && bytes == Unread(old(bytes))
                && match Read(utf8, old(bytes))
                   case Ended => answer.value == Ok(None)
                   case Bad(e) => answer.value == Err(e)
                   case Got(frame, rest) => answer.value == Ok(Some(frame)) && bytes == rest
    {
      if !closed && !Ready(bytes) {
        return None;
      }
      var r := TakeFrame(utf8);
      answer := Some(r);
    }

    /** The same with nothing more to wait for. */
    method TakeFrame(utf8: Utf8) returns (r: Result<Option<Frame>, ReadError>)
      modifies this`bytes
      ensures match Read(utf8, old(bytes))
              case Ended => r == Ok(None)
              case Bad(e) => r == Err(e)
              case Got(frame, rest) => r == Ok(Some(frame)) && bytes == rest
      ensures bytes == Unread(old(bytes))
    {
      if |bytes| < 4 {
        bytes := [];
        return Ok(None);
      }
      var total := Of32(bytes[..4]);
      bytes := bytes[4..];
      if !(2 <= total <= MAX_FRAME_LEN) {
        return Err(LengthOutOfBounds);
      }
      if |bytes| < total {
        bytes := [];
        return Err(CutShort);
      }
      ghost var s := old(bytes);
      assert bytes[..total] == s[4..4 + total] && bytes[total..] == s[4 + total..];
      var buf := bytes[..total];
      bytes := bytes[total..];
      var channelLen := Of16([buf[0], buf[1]]);
      assert [buf[0], buf[1]] == buf[..2];
      if 2 + channelLen > total {
        return Err(ChannelTooLongForFrame);
      }
      if !utf8(buf[2..2 + channelLen]) {
        return Err(NotUtf8);
      }
      r := Ok(Some(Frame(buf[2..2 + channelLen], buf[2 + channelLen..])));
    }
  }

  lemma Parts(before: seq<byte>, a: seq<byte>, b: seq<byte>, c: seq<byte>, d: seq<byte>)
    ensures before + a + b + c + d == before + (a + (b + (c + d)))
  {
  }

  lemma BodyReads(utf8: Utf8, f: Frame, rest: seq<byte>)
    requires Writable(f) && utf8(f.channel)
    ensures ReadBody(utf8, Body(f), rest) == Got(f, rest)
  {
    var n := |f.channel|;
    var body := Body(f);
    assert body[..2] == Be16(n);
    Inverse16(n, Be16(n));
    hide Of16, Be16;
    assert body[2..2 + n] == f.channel && body[2 + n..] == f.payload;
  }

  lemma BodyIsRead(utf8: Utf8, body: seq<byte>, rest: seq<byte>, f: Frame)
    requires 2 <= |body| <= MAX_FRAME_LEN && ReadBody(utf8, body, rest) == Got(f, rest)
    ensures Writable(f) && utf8(f.channel) && Body(f) == body && 2 + |f.channel| + |f.payload| == |body|
  {
    var n := Of16(body[..2]);
    Inverse16(n, body[..2]);
    hide Of16, Be16;
    assert body == body[..2] + (body[2..2 + n] + body[2 + n..]);
  }

  /** A frame is read exactly from its own bytes: reading and writing are inverse, whatever follows. */
  lemma ReadInvertsWrite(utf8: Utf8, s: seq<byte>, f: Frame, rest: seq<byte>)
    ensures Read(utf8, s) == Got(f, rest) <==> Writable(f) && utf8(f.channel) && s == Wire(f) + rest
  {
    if Writable(f) && utf8(f.channel) && s == Wire(f) + rest {
      WireReads(utf8, f, rest);
    }
    if Read(utf8, s) == Got(f, rest) {
      WireIsRead(utf8, s, f, rest);
    }
  }

  lemma WireReads(utf8: Utf8, f: Frame, rest: seq<byte>)
    requires Writable(f) && utf8(f.channel)
    ensures Read(utf8, Wire(f) + rest) == Got(f, rest)
  {
    var s, total := Wire(f) + rest, 2 + |f.channel| + |f.payload|;
    BodyReads(utf8, f, rest);
    Inverse32(total, Be32(total));
    hide Of32, Be32, ReadBody;
    assert s == Be32(total) + (Body(f) + rest);
    assert s[..4] == Be32(total);
    assert s[4..4 + total] == Body(f) && s[4 + total..] == rest;
  }

  lemma RestOfBody(utf8: Utf8, body: seq<byte>, rest: seq<byte>)
    requires |body| >= 2
    ensures ReadBody(utf8, body, rest).Got? ==> ReadBody(utf8, body, rest).rest == rest
  {
  }

  lemma ThreeParts(s: seq<byte>, a: nat, b: nat)
    requires a <= b <= |s|
    ensures s == s[..a] + s[a..b] + s[b..]
  {
  }

  lemma WireIsRead(utf8: Utf8, s: seq<byte>, f: Frame, rest: seq<byte>)
    requires Read(utf8, s) == Got(f, rest)
    ensures Writable(f) && utf8(f.channel) && s == Wire(f) + rest
  {
    hide Of32, Be32, Body, ReadBody, Writable;
    var total := Of32(s[..4]);
    var body, after := s[4..4 + total], s[4 + total..];
    RestOfBody(utf8, body, after);
    BodyIsRead(utf8, body, rest, f);
    Inverse32(total, s[..4]);
    ThreeParts(s, 4, 4 + total);
  }

  /** Where everything is: four length bytes, two for the channel's, highest first, then the name and the payload. */
  lemma WireLayout(f: Frame)
    requires Writable(f)
    ensures var (w, n) := (Wire(f), |f.channel|);
            && |w| == 6 + n + |f.payload|
            && w[0] as int * 0x100_0000 + w[1] as int * 0x1_0000 + w[2] as int * 0x100 + w[3] as int == |w| - 4
            && w[4] as int * 0x100 + w[5] as int == n
            && w[6..6 + n] == f.channel && w[6 + n..] == f.payload
  {
    var total := 2 + |f.channel| + |f.payload|;
    var (high, low) := (total / 0x1_0000, total % 0x1_0000);
    assert Wire(f)[..6] == [high / 256, high % 256, low / 256, low % 256, |f.channel| / 256, |f.channel| % 256];
    assert Wire(f)[6..] == f.channel + f.payload;
    hide Wire;
    assert high / 256 * 0x100_0000 + high % 256 * 0x1_0000 == high * 0x1_0000;
  }

  /** The byte layout both ends pin: `{}` on `ctl`. */
  lemma PinnedFrame()
    ensures var f := Frame([99, 116, 108], [123, 125]);
            Writable(f) && Wire(f) == [0, 0, 0, 7, 0, 3, 99, 116, 108, 123, 125]
  {
  }

  // ------------------------------------------------------------------
  // Streams of frames
  // ------------------------------------------------------------------

  function WireAll(frames: seq<Frame>): seq<byte>
    requires forall f | f in frames :: Writable(f)
  {
    if frames == [] then [] else Wire(frames[0]) + WireAll(frames[1..])
  }

  lemma ReadShortens(utf8: Utf8, s: seq<byte>)
    ensures Read(utf8, s).Got? ==> |Read(utf8, s).rest| < |s|
  {
    hide Of32, Of16;
  }

  /** Read until the end, or the first error. */
  function ReadAll(utf8: Utf8, s: seq<byte>): (seq<Frame>, Option<ReadError>)
    decreases |s|
  {
    match Read(utf8, s)
    case Ended => ([], None)
    case Bad(e) => ([], Some(e))
    case Got(f, rest) =>
      ReadShortens(utf8, s);
      var (frames, error) := ReadAll(utf8, rest);
      ([f] + frames, error)
  }

  lemma ReadOn(utf8: Utf8, s: seq<byte>, f: Frame, rest: seq<byte>)
    requires Read(utf8, s) == Got(f, rest)
    ensures ReadAll(utf8, s) == ([f] + ReadAll(utf8, rest).0, ReadAll(utf8, rest).1)
  {
    hide Read;
  }

  lemma NothingToRead(utf8: Utf8)
    ensures ReadAll(utf8, []) == ([], None)
  {
  }

  /** Whatever frames are written one after the other are read back, in order, to a clean end. */
  lemma {:induction false} FramesRoundTrip(utf8: Utf8, frames: seq<Frame>)
    requires forall f | f in frames :: Writable(f) && utf8(f.channel)
    ensures ReadAll(utf8, WireAll(frames)) == (frames, None)
  {
    hide ReadAll, Read, Wire, Writable;
    if frames == [] {
      NothingToRead(utf8);
    } else {
      var first, rest := frames[0], frames[1..];
      assert first in frames;
      FramesRoundTrip(utf8, rest);
      var tail := WireAll(rest);
      assert WireAll(frames) == Wire(first) + tail;
      hide WireAll;
      WireReads(utf8, first, tail);
      ReadOn(utf8, Wire(first) + tail, first, tail);
      assert frames == [first] + rest;
    }
  }

  // However the bytes arrive.

  /** What is there to be read reads the same whatever comes after it. */
  lemma ReadyReadsOn(utf8: Utf8, s: seq<byte>, more: seq<byte>)
    requires Ready(s)
    ensures Ready(s + more)
    ensures match Read(utf8, s)
            case Ended => false
            case Bad(e) => Read(utf8, s + more) == Bad(e)
            case Got(f, rest) => Read(utf8, s + more) == Got(f, rest + more)
  {
    hide Of32, ReadBody;
    assert (s + more)[..4] == s[..4];
    var total := Of32(s[..4]);
    if 2 <= total <= MAX_FRAME_LEN {
      assert (s + more)[4..4 + total] == s[4..4 + total] && (s + more)[4 + total..] == s[4 + total..] + more;
      SameBody(utf8, s[4..4 + total], s[4 + total..], s[4 + total..] + more);
    }
  }

  lemma SameBody(utf8: Utf8, body: seq<byte>, rest: seq<byte>, longer: seq<byte>)
    requires |body| >= 2
    ensures match ReadBody(utf8, body, rest)
            case Ended => false
            case Bad(e) => ReadBody(utf8, body, longer) == Bad(e)
            case Got(f, r) => r == rest && ReadBody(utf8, body, longer) == Got(f, longer)
  {
  }

  /** What a reader has read while it did not have to wait: the frames, what is left, and the error it stopped at. */
  datatype Progress = Progress(frames: seq<Frame>, left: seq<byte>, error: Option<ReadError>)

  function ReadWhileReady(utf8: Utf8, s: seq<byte>): Progress
    decreases |s|
  {
    if !Ready(s) then Progress([], s, None)
    else
      match Read(utf8, s)
      case Ended => Progress([], s, None)
      case Bad(e) => Progress([], s, Some(e))
      case Got(f, rest) =>
        ReadShortens(utf8, s);
        var p := ReadWhileReady(utf8, rest);
        p.(frames := [f] + p.frames)
  }

  /** A reader that is woken for each piece as it arrives. */
  function ReadAsTheyCome(utf8: Utf8, pieces: seq<seq<byte>>): Progress {
    if pieces == [] then Progress([], [], None)
    else
      var before := ReadAsTheyCome(utf8, pieces[..|pieces| - 1]);
      if before.error.Some? then before
      else
        var now := ReadWhileReady(utf8, before.left + pieces[|pieces| - 1]);
        now.(frames := before.frames + now.frames)
  }

  lemma {:induction false} ReadyPrefix(utf8: Utf8, s: seq<byte>, more: seq<byte>)
    ensures var p := ReadWhileReady(utf8, s);
            var q := ReadWhileReady(utf8, p.left + more);
            var all := ReadWhileReady(utf8, s + more);
            && all.frames == p.frames + (if p.error.Some? then [] else q.frames)
            && all.error == (if p.error.Some? then p.error else q.error)
            && (p.error.None? ==> all.left == q.left)
    decreases |s|
  {
    hide Ready, Read, ReadWhileReady;
    ReadyStep(utf8, s);
    if Ready(s) {
      ReadyReadsOn(utf8, s, more);
      ReadyStep(utf8, s + more);
      match Read(utf8, s)
      case Bad(e) =>
      case Got(f, rest) =>
        ReadShortens(utf8, s);
        ReadyPrefix(utf8, rest, more);
        Joined([f], ReadWhileReady(utf8, rest).frames,
               ReadWhileReady(utf8, ReadWhileReady(utf8, rest).left + more).frames);
    }
  }

  lemma ReadyStep(utf8: Utf8, s: seq<byte>)
    ensures !Ready(s) ==> ReadWhileReady(utf8, s) == Progress([], s, None)
    ensures Ready(s) && Read(utf8, s).Bad? ==> ReadWhileReady(utf8, s) == Progress([], s, Some(Read(utf8, s).error))
    ensures Ready(s) && Read(utf8, s).Got? ==>
              var p := ReadWhileReady(utf8, Read(utf8, s).rest);
              ReadWhileReady(utf8, s) == p.(frames := [Read(utf8, s).frame] + p.frames)
    ensures Ready(s) ==> !Read(utf8, s).Ended?
  {
    if Ready(s) {
      ReadyReadsOn(utf8, s, []);
    }
    hide Ready, Read;
  }

  lemma Joined(a: seq<Frame>, b: seq<Frame>, c: seq<Frame>)
    ensures a + (b + c) == a + b + c && a + (b + []) == a + b + []
  {
  }

  /**
   * However a stream is split on its way, the frames read as the pieces arrive, and the error if there is one, are
   * those of the whole stream read once it has closed; what is left then is what the close cuts short.
   */
  lemma {:induction false} ArrivalDoesNotMatter(utf8: Utf8, pieces: seq<seq<byte>>)
    ensures var p := ReadAsTheyCome(utf8, pieces);
            var whole := ReadWhileReady(utf8, Concat(pieces));
            p.frames == whole.frames && p.error == whole.error && (p.error.None? ==> p.left == whole.left)
  {
    hide Ready, Read, ReadWhileReady, Concat;
    if pieces == [] {
      NothingReady(utf8);
    } else {
      var before, last := pieces[..|pieces| - 1], pieces[|pieces| - 1];
      ArrivalDoesNotMatter(utf8, before);
      assert pieces == before + [last];
      ConcatSnoc(before, last);
      ReadyPrefix(utf8, Concat(before), last);
    }
  }

  lemma NothingReady(utf8: Utf8)
    ensures ReadWhileReady(utf8, Concat([])) == Progress([], [], None)
  {
  }

  /** And closing turns that into what reading the whole stream gives. */
  lemma {:induction false} ClosingReadsAll(utf8: Utf8, s: seq<byte>)
    ensures var p := ReadWhileReady(utf8, s);
            ReadAll(utf8, s)
            == (p.frames, if p.error.Some? then p.error else if |p.left| < 4 then None else Some(CutShort))
    decreases |s|
  {
    if Ready(s) {
      match Read(utf8, s)
      case Bad(e) =>
      case Got(f, rest) =>
        ReadShortens(utf8, s);
        ClosingReadsAll(utf8, rest);
        hide Ready, Read;
    }
  }

  /** Frames written one after the other arrive in order, however they are split on the way. */
  lemma FramesArrive(utf8: Utf8, frames: seq<Frame>, pieces: seq<seq<byte>>)
    requires forall f | f in frames :: Writable(f) && utf8(f.channel)
    requires Concat(pieces) == WireAll(frames)
    ensures ReadAsTheyCome(utf8, pieces).frames == frames && ReadAsTheyCome(utf8, pieces).error.None?
  {
    hide *;
    ArrivalDoesNotMatter(utf8, pieces);
    FramesRoundTrip(utf8, frames);
    ClosingReadsAll(utf8, WireAll(frames));
  }

  /**
   * A stream that ends inside a frame: an error, unless it ends inside the four length bytes, which reads
   * as a clean end although bytes are lost.
   */
  lemma CutFrame(utf8: Utf8, f: Frame, k: nat)
    requires Writable(f) && k < |Wire(f)|
    ensures Read(utf8, Wire(f)[..k]) == if k < 4 then Ended else Bad(CutShort)
  {
    var total := 2 + |f.channel| + |f.payload|;
    Inverse32(total, Be32(total));
    if k >= 4 {
      assert Wire(f)[..k][..4] == Be32(total);
    }
    hide Of32, Be32, ReadBody;
  }

  // ------------------------------------------------------------------
  // Channel names
  // ------------------------------------------------------------------

  datatype Channel = Ctl | Pty(id: string) | Fwd(port: u16, stream: Option<string>) | Vfs | Log

  function SlashAt(s: string): Option<nat> {
    if s == "" then None
    else if s[0] == '/' then Some(0)
    else
      var later := SlashAt(s[1..]);
      if later.None? then None else Some(later.value + 1)
  }

  lemma {:induction false} FirstSlash(s: string)
    ensures SlashAt(s).None? <==> '/' !in s
    ensures SlashAt(s).Some? ==>
              && SlashAt(s).value < |s| && s[SlashAt(s).value] == '/' && '/' !in s[..SlashAt(s).value]
              && s == s[..SlashAt(s).value] + "/" + s[SlashAt(s).value + 1..]
  {
    if s != "" {
      var rest := s[1..];
      assert s == [s[0]] + rest;
      if s[0] == '/' {
        assert SlashAt(s) == Some(0) && s[..0] == "" && s == "" + "/" + rest;
      } else {
        FirstSlash(rest);
        SlashLater(s);
        hide SlashAt;
        if SlashAt(s).Some? {
          CutLater(s, SlashAt(s).value);
        }
      }
    }
  }

  lemma SlashLater(s: string)
    requires s != "" && s[0] != '/'
    ensures SlashAt(s) == match SlashAt(s[1..]) case None => None case Some(k) => Some(k + 1)
  {
  }

  lemma CutLater(s: string, k: nat)
    requires 0 < k < |s| && s[0] != '/' && s[k] == '/' && '/' !in s[1..][..k - 1]
    ensures '/' !in s[..k] && s == s[..k] + "/" + s[k + 1..]
  {
    assert s[..k] == [s[0]] + s[1..][..k - 1];
  }

  lemma {:induction false} SplitsAt(a: string, b: string)
    requires '/' !in a
    ensures SlashAt(a + "/" + b) == Some(|a|)
    ensures (a + "/" + b)[..|a|] == a && (a + "/" + b)[|a| + 1..] == b
  {
    var s := a + "/" + b;
    if a != "" {
      SplitsAt(a[1..], b);
      assert s[1..] == a[1..] + "/" + b;
    }
  }

  predicate IsDigit(c: char) {
    '0' <= c <= '9'
  }

  predicate AllDigits(s: string) {
    forall c | c in s :: IsDigit(c)
  }

  function DigitChar(n: nat): char
    requires n < 10
  {
    '0' + n as char
  }

  function ToDecimal(n: nat): (s: string)
    ensures s != "" && AllDigits(s)
  {
    if n < 10 then [DigitChar(n)] else ToDecimal(n / 10) + [DigitChar(n % 10)]
  }

  function DecimalValue(s: string): nat {
    if s == "" then 0
    else DecimalValue(s[..|s| - 1]) * 10 + if IsDigit(s[|s| - 1]) then (s[|s| - 1] - '0') as nat else 0
  }

  /** Rust's `parse::<u16>()`: a plus sign is allowed, and so are leading zeros. */
  function ParseU16(s: string): Option<u16> {
    var digits := if s != "" && s[0] == '+' then s[1..] else s;
    if digits == "" || !AllDigits(digits) || DecimalValue(digits) > 65535 then None else Some(DecimalValue(digits))
  }

  function ParseFwd(rest: string): (c: Option<Channel>)
    ensures c.Some? ==> c.value.Fwd? && c.value.port > 0
  {
    var slash := SlashAt(rest);
    if slash.Some? && slash.value + 1 == |rest| then None
    else
      var portPart := if slash.Some? && slash.value < |rest| then rest[..slash.value] else rest;
      var stream := if slash.Some? && slash.value < |rest| then Some(rest[slash.value + 1..]) else None;
      var port := ParseU16(portPart);
      if port.None? || port.value == 0 then None else Some(Fwd(port.value, stream))
  }

  /** `parse_channel`. */
  function ParseChannel(name: string): Option<Channel> {
    if name == "ctl" then Some(Ctl)
    else if name == "vfs" then Some(Vfs)
    else if name == "log" then Some(Log)
    else
      var slash := SlashAt(name);
      if slash.None? || slash.value >= |name| then None
      else
        var head, rest := name[..slash.value], name[slash.value + 1..];
        if head == "pty" && rest != "" then Some(Pty(rest))
        else if head == "fwd" then ParseFwd(rest)
        else None
  }

  /** `channel_name`. */
  function ChannelName(c: Channel): string {
    match c
    case Ctl => "ctl"
    case Pty(id) => "pty" + "/" + id
    case Fwd(port, None) => "fwd" + "/" + ToDecimal(port)
    case Fwd(port, Some(id)) => "fwd" + "/" + (ToDecimal(port) + "/" + id)
    case Vfs => "vfs"
    case Log => "log"
  }

  lemma {:induction false} DecimalReads(n: nat)
    ensures DecimalValue(ToDecimal(n)) == n
    ensures ToDecimal(n)[0] == '0' <==> n == 0
    ensures '/' !in ToDecimal(n) && '+' !in ToDecimal(n)
  {
    var s := ToDecimal(n);
    if n < 10 {
      assert s[..0] == "" && DecimalValue(s[..0]) == 0;
    } else {
      DecimalReads(n / 10);
      assert s[..|s| - 1] == ToDecimal(n / 10);
    }
  }

  lemma DecimalParses(n: u16)
    ensures ParseU16(ToDecimal(n)) == Some(n)
  {
    DecimalReads(n);
    assert ToDecimal(n)[0] in ToDecimal(n);
  }

  lemma TenTimes(v: nat, d: nat)
    requires v > 0 && d < 10
    ensures ToDecimal(v * 10 + d) == ToDecimal(v) + [DigitChar(d)]
  {
    assert (v * 10 + d) / 10 == v && (v * 10 + d) % 10 == d;
  }

  /** Digits are printed back as they were unless they start with a zero. */
  lemma {:induction false} DigitsPrintBack(s: string)
    requires s != "" && AllDigits(s) && s[0] != '0'
    ensures DecimalValue(s) > 0 && ToDecimal(DecimalValue(s)) == s
  {
    var n := |s| - 1;
    var init, last := s[..n], s[n];
    assert s == init + [last];
    assert last in s && IsDigit(last);
    if n > 0 {
      assert forall c | c in init :: c in s;
      DigitsPrintBack(init);
      var v, d := DecimalValue(init), (last - '0') as nat;
      assert DecimalValue(s) == v * 10 + d;
      TenTimes(v, d);
    } else {
      assert init == "" && DecimalValue(init) == 0;
    }
  }

  /** The channels that have a name of their own. */
  predicate Nameable(c: Channel) {
    (c.Pty? ==> c.id != "") && (c.Fwd? ==> c.port > 0 && (c.stream.Some? ==> c.stream.value != ""))
  }

  lemma HeadedName(head: string, rest: string)
    requires '/' !in head && |head| == 3
    ensures var name := head + "/" + rest;
            && SlashAt(name) == Some(3) && name[..3] == head && name[4..] == rest
            && |name| == 4 + |rest| && name != "ctl" && name != "vfs" && name != "log"
  {
    SplitsAt(head, rest);
  }

  /** Every name a channel is given parses back to it, and the channels without a name do not parse. */
  lemma NameParses(c: Channel)
    ensures ParseChannel(ChannelName(c)) == if Nameable(c) then Some(c) else None
  {
    hide SlashAt, ParseU16, ToDecimal;
    if c.Pty? {
      HeadedName("pty", c.id);
    } else if c.Fwd? {
      DecimalParses(c.port);
      DecimalReads(c.port);
      FirstSlash(ToDecimal(c.port));
      if c.stream.Some? {
        SplitsAt(ToDecimal(c.port), c.stream.value);
        HeadedName("fwd", ToDecimal(c.port) + "/" + c.stream.value);
      } else {
        HeadedName("fwd", ToDecimal(c.port));
      }
    }
  }

  /** A port written with digits alone, the first of them not zero. */
  predicate PlainPort(name: string) {
    |name| > 4 && name[4] != '+' && name[4] != '0'
  }

  /** The parts of a forward's name. */
  lemma FwdParts(rest: string) returns (portPart: string, tail: string)
    requires ParseFwd(rest).Some?
    ensures rest == portPart + tail && ParseFwd(rest).value.Fwd?
    ensures ParseU16(portPart) == Some(ParseFwd(rest).value.port) && ParseFwd(rest).value.port > 0
    ensures tail == match ParseFwd(rest).value.stream case Some(id) => "/" + id case None => ""
  {
    hide ParseU16, SlashAt;
    FirstSlash(rest);
    var slash := SlashAt(rest);
    if slash.Some? {
      portPart, tail := rest[..slash.value], "/" + rest[slash.value + 1..];
    } else {
      portPart, tail := rest, "";
    }
  }

  lemma NameParts(name: string)
    requires ParseChannel(name).Some?
    ensures var c := ParseChannel(name).value;
            && (!c.Fwd? ==> ChannelName(c) == name)
            && (c.Fwd? ==> |name| >= 4 && name == "fwd" + "/" + name[4..] && ParseFwd(name[4..]) == Some(c))
  {
    hide SlashAt, ParseFwd;
    FirstSlash(name);
    if ParseChannel(name).value.Fwd? {
      assert ParseFwd(name[4..]).Some?;
    }
  }

  /**
   * The other way round holds but for the spelling of ports: a name that parses is the name of what it
   * parses to exactly when it is not a forward whose port starts with a plus sign or a zero.
   */
  lemma ParsedNamesBack(name: string)
    requires ParseChannel(name).Some?
    ensures ChannelName(ParseChannel(name).value) == name <==> (ParseChannel(name).value.Fwd? ==> PlainPort(name))
  {
    hide ParseChannel, ParseFwd, ParseU16, ToDecimal, SlashAt;
    var c := ParseChannel(name).value;
    NameParts(name);
    if c.Fwd? {
      var portPart, tail := FwdParts(name[4..]);
      PortSpelling(portPart);
      SamePort(ToDecimal(c.port), portPart, tail);
      assert name[4..][0] == name[4] == portPart[0];
      assert ToDecimal(c.port) + "" == ToDecimal(c.port);
      if c.stream.Some? {
        assert ToDecimal(c.port) + "/" + c.stream.value == ToDecimal(c.port) + tail;
      }
    }
  }

  /** Digits with this value, and perhaps a plus sign before them. */
  predicate Spells(part: string, port: u16) {
    var digits := if part != "" && part[0] == '+' then part[1..] else part;
    digits != "" && AllDigits(digits) && DecimalValue(digits) == port
  }

  function WithStream(part: string, stream: Option<string>): string {
    match stream
    case None => part
    case Some(id) => part + "/" + id
  }

  /** A forward may be named by any spelling of its port, and by nothing else. */
  lemma AnySpellingParses(part: string, stream: Option<string>, port: u16)
    requires '/' !in part
    ensures ParseChannel("fwd" + "/" + WithStream(part, stream)) == Some(Fwd(port, stream))
       <==> Spells(part, port) && port > 0 && stream != Some("")
  {
    hide SlashAt, DecimalValue;
    HeadedName("fwd", WithStream(part, stream));
    FirstSlash(part);
    if stream.Some? {
      SplitsAt(part, stream.value);
    }
  }

  lemma DigitsOf80()
    ensures DecimalValue("80") == 80 == DecimalValue("0080")
  {
    hide *;
    NoDigits();
    DigitSnoc("", '8');
    DigitSnoc("8", '0');
    DigitSnoc("", '0');
    DigitSnoc("0", '0');
    DigitSnoc("00", '8');
    DigitSnoc("008", '0');
    assert "" + ['8'] == "8" && "8" + ['0'] == "80" && "" + ['0'] == "0" && "0" + ['0'] == "00";
    assert "00" + ['8'] == "008" && "008" + ['0'] == "0080";
  }

  lemma NoDigits()
    ensures DecimalValue("") == 0
  {
  }

  lemma DigitSnoc(s: string, c: char)
    requires '0' <= c <= '9'
    ensures DecimalValue(s + [c]) == DecimalValue(s) * 10 + (c - '0') as nat
  {
    assert (s + [c])[..|s|] == s;
  }

  /** A plus sign and leading zeros are accepted in a port. */
  lemma PortsMayLookOdd()
    ensures ParseChannel("fwd/+80") == ParseChannel("fwd/0080") == ParseChannel("fwd/80") == Some(Fwd(80, None))
  {
    hide ParseChannel, DecimalValue;
    DigitsOf80();
    AnySpellingParses("80", None, 80);
    AnySpellingParses("0080", None, 80);
    AnySpellingParses("+80", None, 80);
    assert "+80"[1..] == "80";
    assert "fwd" + "/" + "80" == "fwd/80" && "fwd" + "/" + "0080" == "fwd/0080";
    assert "+" + "80" == "+80" && "fwd" + "/" + "+80" == "fwd/+80";
  }

  lemma SamePort(a: string, b: string, tail: string)
    ensures "fwd" + "/" + (a + tail) == "fwd" + "/" + (b + tail) <==> a == b
  {
    var x, y := "fwd" + "/" + (a + tail), "fwd" + "/" + (b + tail);
    if x == y {
      assert x[4..] == a + tail && y[4..] == b + tail;
      assert |a| == |b| && (a + tail)[..|a|] == a && (b + tail)[..|b|] == b;
    }
  }

  lemma PortSpelling(s: string)
    requires ParseU16(s).Some? && ParseU16(s).value > 0
    ensures s != "" && (ToDecimal(ParseU16(s).value) == s <==> s[0] != '+' && s[0] != '0')
  {
    var v := ParseU16(s).value;
    DecimalReads(v);
    assert ToDecimal(v)[0] in ToDecimal(v);
    if s[0] != '+' && s[0] != '0' {
      DigitsPrintBack(s);
    }
  }
}
