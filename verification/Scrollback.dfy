/**
 * The scrollback ring of a terminal: the last lines of its output, addressed by offsets into everything it
 * ever put out. The ring is pushed to in pieces of any size; what it holds depends only on the bytes.
 */
module Scrollback {
  import Seqs
  import opened Bytes

  const NEWLINE: byte := 10

  const PTY_SCROLLBACK_LINES: nat := 100_000

  // ------------------------------------------------------------------
  // Lines
  // ------------------------------------------------------------------

  datatype Cutting = Cutting(lines: seq<seq<byte>>, partial: seq<byte>)

  /** The terminated lines of a byte string, and what follows the last of them. */
  function CutLines(s: seq<byte>): Cutting {
    if s == [] then Cutting([], [])
    else
      var c, b := CutLines(s[..|s| - 1]), s[|s| - 1];
      if b == NEWLINE then Cutting(c.lines + [c.partial + [b]], [])
      else Cutting(c.lines, c.partial + [b])
  }

  ghost predicate IsLine(line: seq<byte>) {
    line != [] && line[|line| - 1] == NEWLINE && NEWLINE !in line[..|line| - 1]
  }

  /** Laid end to end the parts are the string, and only a newline ends a line. */
  ghost predicate IsCutting(s: seq<byte>, c: Cutting) {
    && Concat(c.lines) + c.partial == s
    && (forall line | line in c.lines :: IsLine(line))
    && NEWLINE !in c.partial
  }

  lemma {:induction false} CutLinesCuts(s: seq<byte>)
    ensures IsCutting(s, CutLines(s))
  {
    if s != [] {
      var c, b := CutLines(s[..|s| - 1]), s[|s| - 1];
      CutLinesCuts(s[..|s| - 1]);
      Seqs.Regroup(Concat(c.lines), c.partial, [b]);
      ConcatSnoc(c.lines, c.partial + [b]);
      assert (c.partial + [b])[..|c.partial|] == c.partial;
      assert s == s[..|s| - 1] + [b];
    }
  }

  /** There is only one such cutting. */
  lemma {:induction false} CuttingIsUnique(s: seq<byte>, c: Cutting)
    ensures IsCutting(s, c) <==> c == CutLines(s)
    decreases |s|
  {
    CutLinesCuts(s);
    if IsCutting(s, c) {
      if c.partial != [] {
        LastByte(s, c);
        hide IsCutting;
        CuttingIsUnique(s[..|s| - 1], Cutting(c.lines, c.partial[..|c.partial| - 1]));
      } else if c.lines != [] {
        LastLine(s, c);
        hide IsCutting;
        var line := c.lines[|c.lines| - 1];
        CuttingIsUnique(s[..|s| - 1], Cutting(c.lines[..|c.lines| - 1], line[..|line| - 1]));
      }
    }
  }

  lemma LastByte(s: seq<byte>, c: Cutting)
    requires IsCutting(s, c) && c.partial != []
    ensures var n := |c.partial| - 1;
            && s != [] && s[|s| - 1] == c.partial[n] != NEWLINE
            && IsCutting(s[..|s| - 1], Cutting(c.lines, c.partial[..n]))
            && c.partial == c.partial[..n] + [c.partial[n]]
  {
    var n := |c.partial| - 1;
    assert c.partial[n] in c.partial;
    assert s[..|s| - 1] == Concat(c.lines) + c.partial[..n];
  }

  lemma LastLine(s: seq<byte>, c: Cutting)
    requires IsCutting(s, c) && c.partial == [] && c.lines != []
    ensures var (k, line) := (|c.lines| - 1, c.lines[|c.lines| - 1]);
            && s != [] && line != [] && s[|s| - 1] == NEWLINE && line == line[..|line| - 1] + [NEWLINE]
            && c.lines == c.lines[..k] + [line]
            && IsCutting(s[..|s| - 1], Cutting(c.lines[..k], line[..|line| - 1]))
  {
    var k, line := |c.lines| - 1, c.lines[|c.lines| - 1];
    assert line in c.lines;
    assert c.lines == c.lines[..k] + [line];
    ConcatSnoc(c.lines[..k], line);
    assert s == Concat(c.lines[..k]) + line;
    assert s[..|s| - 1] == Concat(c.lines[..k]) + line[..|line| - 1];
    assert forall l | l in c.lines[..k] :: l in c.lines;
  }

  /** One piece of `split_inclusive`: no newline except perhaps at its end. */
  ghost predicate IsPiece(piece: seq<byte>) {
    piece != [] && NEWLINE !in piece[..|piece| - 1]
  }

  lemma {:induction false} CutPiece(s: seq<byte>, piece: seq<byte>)
    requires IsPiece(piece)
    ensures CutLines(s + piece)
         == var c := CutLines(s);
            if piece[|piece| - 1] == NEWLINE then Cutting(c.lines + [c.partial + piece], [])
            else Cutting(c.lines, c.partial + piece)
  {
    var n := |piece| - 1;
    var b := piece[n];
    assert (s + piece)[..|s + piece| - 1] == s + piece[..n];
    if n == 0 {
      assert s + piece[..n] == s && piece == [b];
    } else {
      assert piece[n - 1] in piece[..n];
      CutPiece(s, piece[..n]);
      Seqs.Regroup(CutLines(s).partial, piece[..n], [b]);
      assert piece == piece[..n] + [b];
    }
  }

  lemma TakePiece(s: seq<byte>, data: seq<byte>, i: nat, end: nat)
    requires i < end <= |data| && forall j | i <= j < end - 1 :: data[j] != NEWLINE
    ensures IsPiece(data[i..end]) && s + data[..i] + data[i..end] == s + data[..end]
  {
    assert data[i..end][..end - i - 1] == data[i..end - 1];
    assert data[..i] + data[i..end] == data[..end];
    Seqs.Regroup(s, data[..i], data[i..end]);
  }

  // ------------------------------------------------------------------
  // What the ring holds
  // ------------------------------------------------------------------

  datatype Ring = Ring(lines: seq<seq<byte>>, partial: seq<byte>, baseOffset: nat, totalBytes: nat)

  /** How many of `n` lines have to go. */
  function Evicted(n: nat, maxLines: nat): (k: nat)
    ensures k <= n
  {
    if n > maxLines then n - maxLines else 0
  }

  /** The ring after `window`, all of it put out from offset `origin` on. */
  function RingOf(maxLines: nat, origin: nat, window: seq<byte>): Ring {
    var c := CutLines(window);
    var k := Evicted(|c.lines|, maxLines);
    Ring(c.lines[k..], c.partial, origin + |Concat(c.lines[..k])|, origin + |window|)
  }

  /** Where a read from `since` starts. */
  function Start(r: Ring, since: nat): nat {
    var from := if since > r.baseOffset then since else r.baseOffset;
    if from < r.totalBytes then from else r.totalBytes
  }

  /**
   * The lines held are the tail of the window from the base offset on; there are at most `maxLines` of them,
   * and no line was given up that could have stayed.
   */
  lemma RingHoldsTail(maxLines: nat, origin: nat, window: seq<byte>)
    ensures var r := RingOf(maxLines, origin, window);
            && origin <= r.baseOffset <= r.totalBytes == origin + |window|
            && Concat(r.lines) + r.partial == window[r.baseOffset - origin..]
            && |r.lines| <= maxLines
            && (r.baseOffset > origin ==> |r.lines| == maxLines)
            && (r.baseOffset == r.totalBytes ==> r.lines == [] && r.partial == [])
  {
    var c := CutLines(window);
    var k := Evicted(|c.lines|, maxLines);
    var r := RingOf(maxLines, origin, window);
    CutLinesCuts(window);
    var gone := Concat(c.lines[..k]);
    assert c.lines == c.lines[..k] + c.lines[k..];
    ConcatBoth(c.lines[..k], c.lines[k..]);
    Seqs.Regroup(gone, Concat(c.lines[k..]), c.partial);
    assert window == gone + (Concat(r.lines) + r.partial);
    assert window[|gone|..] == Concat(r.lines) + r.partial;
    if r.lines != [] {
      assert r.lines[0] in c.lines;
    }
  }

  lemma {:induction false} LinesGrow(s: seq<byte>, t: seq<byte>)
    ensures CutLines(s).lines <= CutLines(s + t).lines
  {
    if t == [] {
      assert s + t == s;
    } else {
      LinesGrow(s, t[..|t| - 1]);
      assert (s + t)[..|s + t| - 1] == s + t[..|t| - 1];
    }
  }

  /** What is evicted stays evicted. */
  lemma BaseGrows(maxLines: nat, origin: nat, window: seq<byte>, more: seq<byte>)
    ensures RingOf(maxLines, origin, window).baseOffset <= RingOf(maxLines, origin, window + more).baseOffset
  {
    var few, all := CutLines(window).lines, CutLines(window + more).lines;
    LinesGrow(window, more);
    var j, k := Evicted(|few|, maxLines), Evicted(|all|, maxLines);
    assert all[..k] == few[..j] + all[j..k];
    ConcatBoth(few[..j], all[j..k]);
  }

  class Scrollback {
    const maxLines: nat
    var lines: seq<seq<byte>>
    var partial: seq<byte>
    var baseOffset: nat
    var totalBytes: nat
    /** What was put out before the window was last replaced, and since. */
    ghost var past: seq<byte>
    ghost var window: seq<byte>

    /** Everything ever put out. */
    ghost function Stream(): seq<byte>
      reads this
    {
      past + window
    }

    ghost function State(): Ring
      reads this
    {
      Ring(lines, partial, baseOffset, totalBytes)
    }

    ghost predicate Valid()
      reads this
    {
      State() == RingOf(maxLines, |past|, window)
    }

    constructor (maxLines: nat)
      ensures Valid() && this.maxLines == maxLines && past == [] && window == []
    {
      this.maxLines := maxLines;
      lines, partial, baseOffset, totalBytes, past, window := [], [], 0, 0, [], [];
    }

    /** The lines and the partial line take in `data`, piece by piece; `gone` is what was evicted before. */
    method Absorb(data: seq<byte>, ghost gone: seq<seq<byte>>)
      requires CutLines(window) == Cutting(gone + lines, partial)
      modifies this`lines, this`partial
      ensures CutLines(window + data) == Cutting(gone + lines, partial) && |lines| >= |old(lines)|
    {
      var i := 0;
      assert window + data[..0] == window;
      hide CutLines, IsPiece;
      while i < |data|
        invariant i <= |data| && |lines| >= |old(lines)|
        invariant CutLines(window + data[..i]) == Cutting(gone + lines, partial)
      {
        var end := i;
        while end < |data| && data[end] != NEWLINE
          invariant i <= end <= |data|
          invariant forall j | i <= j < end :: data[j] != NEWLINE
        {
          end := end + 1;
        }
        if end < |data| {
          end := end + 1;
        }
        var piece := data[i..end];
        TakePiece(window, data, i, end);
        CutPiece(window + data[..i], piece);
        partial := partial + piece;
        if piece[|piece| - 1] == NEWLINE {
          Seqs.Regroup(gone, lines, [partial]);
          lines, partial := lines + [partial], [];
        }
        i := end;
      }
      assert data[..|data|] == data;
    }

    /** Drop the oldest lines until no more than `maxLines` are left. */
    method Evict(ghost all: seq<seq<byte>>, ghost gone: seq<seq<byte>>)
      requires all == gone + lines && |gone| <= Evicted(|all|, maxLines)
      modifies this`lines, this`baseOffset
      ensures var k := Evicted(|all|, maxLines);
              && lines == all[k..]
              && baseOffset == old(baseOffset) - |Concat(gone)| + |Concat(all[..k])|
    {
      ghost var k := |gone|;
      assert all[..k] == gone;
      while |lines| > maxLines
        invariant k <= Evicted(|all|, maxLines) && lines == all[k..]
        invariant baseOffset == old(baseOffset) - |Concat(gone)| + |Concat(all[..k])|
      {
        assert all[..k + 1] == all[..k] + [lines[0]];
        ConcatSnoc(all[..k], lines[0]);
        baseOffset := baseOffset + |lines[0]|;
        lines := lines[1..];
        k := k + 1;
      }
    }

    /** Nothing of the state depends on how a stream was split into pushes: it is a function of the bytes. */
    method Push(data: seq<byte>)
      requires Valid()
      modifies this
      ensures Valid() && past == old(past)
      ensures window == old(window) + data
    {
      ghost var before := CutLines(window).lines;
      ghost var gone := before[..Evicted(|before|, maxLines)];
      assert gone + lines == before;
      hide CutLines;
      totalBytes := totalBytes + |data|;
      Absorb(data, gone);
      window := window + data;
      Evict(gone + lines, gone);
    }

    /** Exactly the stream from `since` (or from the first byte retained) to its end. */
    method BytesSince(since: nat) returns (out: seq<byte>)
      requires Valid()
      ensures baseOffset <= totalBytes == |Stream()| && |lines| <= maxLines
      ensures out == Stream()[Start(State(), since)..]
    {
      hide RingOf, Concat;
      RingHoldsTail(maxLines, |past|, window);
      var start := if since > baseOffset then since else baseOffset;
      start := if start < totalBytes then start else totalBytes;
      ConcatSnoc(lines, partial);
      ReadIsStream(past, window, baseOffset, start);
      out := ReadParts(lines + [partial], baseOffset, start);
    }

    /** The window is replaced, and offsets go on from where the stream is. */
    method ReplaceRetained(data: seq<byte>)
      requires Valid()
      modifies this
      ensures Valid() && past == old(Stream())
      ensures window == data
    {
      RingHoldsTail(maxLines, |past|, window);
      lines, partial := [], [];
      baseOffset := totalBytes;
      past, window := past + window, [];
      Push(data);
      assert [] + data == data;
    }
  }

  /** The loop of `bytes_since`: the parts laid end to end from offset `pos` on, read from `start`. */
  method ReadParts(parts: seq<seq<byte>>, base: nat, start: nat) returns (out: seq<byte>)
    requires base <= start <= base + |Concat(parts)|
    ensures out == Concat(parts)[start - base..]
  {
    hide Concat, From;
    out := [];
    var pos := base;
    ghost var done: seq<byte> := [];
    FromStart(parts, start - base);
    for i := 0 to |parts|
      invariant pos == base + |done| && done == Concat(parts[..i])
      invariant out == From(done, start - base)
    {
      var line := parts[i];
      var end := pos + |line|;
      NextPart(parts, i);
      FromStep(done, line, start - base);
      if end > start {
        var skip := if start > pos then start - pos else 0;
        out := out + line[skip..];
      }
      pos := end;
      done := done + line;
    }
    assert parts[..|parts|] == parts;
    FromEnd(done, start - base);
  }

  function From(s: seq<byte>, n: nat): seq<byte> {
    if n < |s| then s[n..] else []
  }

  lemma FromStart(parts: seq<seq<byte>>, n: nat)
    ensures Concat(parts[..0]) == [] == From([], n)
  {
  }

  lemma FromStep(done: seq<byte>, line: seq<byte>, n: nat)
    ensures From(done + line, n)
         == if |done| + |line| <= n then From(done, n)
            else From(done, n) + line[if n > |done| then n - |done| else 0..]
  {
  }

  lemma FromEnd(s: seq<byte>, n: nat)
    requires n <= |s|
    ensures From(s, n) == s[n..]
  {
  }

  lemma NextPart(parts: seq<seq<byte>>, i: nat)
    requires i < |parts|
    ensures Concat(parts[..i + 1]) == Concat(parts[..i]) + parts[i]
  {
    hide Concat;
    assert parts[..i + 1] == parts[..i] + [parts[i]];
    ConcatSnoc(parts[..i], parts[i]);
  }

  lemma ReadIsStream(past: seq<byte>, window: seq<byte>, base: nat, start: nat)
    requires |past| <= base <= start <= |past| + |window|
    ensures window[base - |past|..][start - base..] == (past + window)[start..]
  {
  }

  /**
   * `persisted_replay`: a ring rebuilt in one push from the log of everything put out serves the bytes the
   * live ring would, which got them in pieces.
   */
  method PersistedReplay(log: seq<byte>, ghost live: Scrollback) returns (out: seq<byte>)
    requires live.Valid() && live.past == [] && live.window == log && live.maxLines == PTY_SCROLLBACK_LINES
    ensures live.baseOffset <= |log| && out == log[live.baseOffset..]
  {
    RingHoldsTail(PTY_SCROLLBACK_LINES, 0, log);
    hide RingOf;
    var ring := new Scrollback(PTY_SCROLLBACK_LINES);
    ring.Push(log);
    assert [] + log == log;
    assert ring.State() == live.State();
    out := ring.BytesSince(0);
  }
}
