/**
 * FastCDC chunking: where the boundaries of a byte string fall, and the two implementations that look for
 * them. The gear table and BLAKE3 are parameters: nothing below depends on their values.
 */
module Chunker {
  import Seqs
  import opened Wrappers
  import opened Bytes
  import opened Masks
  import opened Numbers

  const MIN_CHUNK_BYTES: nat := 256 * 1024
  const AVG_CHUNK_BYTES: nat := 1024 * 1024
  const MAX_CHUNK_BYTES: nat := 4 * 1024 * 1024

  /** The rolling hash is 32 bits wide, and wraps. */
  const WORD: nat := 0x1_0000_0000

  type Gear = byte -> u32

  const STRICT_BITS: nat := 22
  const LOOSE_BITS: nat := 18

  /**
   * What decides a boundary: the gear table, and the tests that stop the scan before and after the average
   * size. All that follows holds for any three; `FastCdc` is the production choice.
   */
  datatype Cutter = Cutter(gear: Gear, strict: u32 -> bool, loose: u32 -> bool)

  /** A boundary needs every masked bit of the hash to be zero: 22 of them early on, then 18. */
  function FastCdc(gear: Gear): Cutter {
    Cutter(gear,
           (hash: u32) => And(hash, MaskOf(STRICT_BITS, STRICT_BITS)) == 0,
           (hash: u32) => And(hash, MaskOf(LOOSE_BITS, LOOSE_BITS)) == 0)
  }

  /** `(hash << 1) + gear[b]`, wrapping. */
  function Roll(gear: Gear, hash: u32, b: byte): u32 {
    (2 * hash + gear(b)) % WORD
  }

  /** The hash after scanning a whole string. */
  function RollAll(gear: Gear, hash: u32, s: seq<byte>): u32 {
    if s == [] then hash else Roll(gear, RollAll(gear, hash, s[..|s| - 1]), s[|s| - 1])
  }

  /** The scan would stop after byte `i` of the remaining input. */
  predicate Stops(c: Cutter, rest: seq<byte>, i: nat)
    requires MIN_CHUNK_BYTES <= i < |rest|
  {
    var hash := RollAll(c.gear, 0, rest[MIN_CHUNK_BYTES..i + 1]);
    if i < AVG_CHUNK_BYTES then c.strict(hash) else c.loose(hash)
  }

  /**
   * `end` is the first boundary of the remaining input: all of it when it is short, else just past the first
   * byte the scan stops at, else the hard limit.
   */
  ghost predicate IsBoundary(c: Cutter, rest: seq<byte>, end: nat) {
    if |rest| <= MIN_CHUNK_BYTES then end == |rest|
    else
      var limit := Min(|rest|, MAX_CHUNK_BYTES);
      && MIN_CHUNK_BYTES < end <= limit
      && (forall i | MIN_CHUNK_BYTES <= i < end - 1 :: !Stops(c, rest, i))
      && (end == limit || Stops(c, rest, end - 1))
  }

  /** Scan on from byte `i` with the hash of the bytes scanned so far. */
  function Scan(c: Cutter, rest: seq<byte>, hash: u32, i: nat): (end: nat)
    requires i <= Min(|rest|, MAX_CHUNK_BYTES)
    ensures i <= end <= Min(|rest|, MAX_CHUNK_BYTES)
    ensures i < Min(|rest|, MAX_CHUNK_BYTES) ==> i < end
    decreases |rest| - i
  {
    if i == Min(|rest|, MAX_CHUNK_BYTES) then i
    else
      var next := Roll(c.gear, hash, rest[i]);
      if (if i < AVG_CHUNK_BYTES then c.strict(next) else c.loose(next)) then i + 1
      else Scan(c, rest, next, i + 1)
  }

  /** The length of the next chunk. */
  function Cut(c: Cutter, rest: seq<byte>): (end: nat)
    ensures end <= |rest| && end <= MAX_CHUNK_BYTES && (rest != [] ==> 0 < end)
    ensures end < |rest| ==> MIN_CHUNK_BYTES < end
  {
    if |rest| <= MIN_CHUNK_BYTES then |rest| else Scan(c, rest, 0, MIN_CHUNK_BYTES)
  }

  lemma RollNext(c: Cutter, rest: seq<byte>, i: nat)
    requires MIN_CHUNK_BYTES <= i < |rest|
    ensures RollAll(c.gear, 0, rest[MIN_CHUNK_BYTES..i + 1])
         == Roll(c.gear, RollAll(c.gear, 0, rest[MIN_CHUNK_BYTES..i]), rest[i])
  {
    var s := rest[MIN_CHUNK_BYTES..i + 1];
    assert s[..|s| - 1] == rest[MIN_CHUNK_BYTES..i];
  }

  lemma {:induction false} ScanStopsFirst(c: Cutter, rest: seq<byte>, i: nat)
    requires MIN_CHUNK_BYTES <= i <= Min(|rest|, MAX_CHUNK_BYTES)
    ensures var end := Scan(c, rest, RollAll(c.gear, 0, rest[MIN_CHUNK_BYTES..i]), i);
            && (forall j | i <= j < end - 1 :: !Stops(c, rest, j))
            && (end == Min(|rest|, MAX_CHUNK_BYTES) || Stops(c, rest, end - 1))
    decreases |rest| - i
  {
    hide Roll, RollAll;
    if i < Min(|rest|, MAX_CHUNK_BYTES) {
      RollNext(c, rest, i);
      if !Stops(c, rest, i) {
        ScanStopsFirst(c, rest, i + 1);
      }
    }
  }

  /** The cut is the one and only boundary. */
  lemma CutIsBoundary(c: Cutter, rest: seq<byte>, end: nat)
    ensures IsBoundary(c, rest, end) <==> end == Cut(c, rest)
  {
    if |rest| > MIN_CHUNK_BYTES {
      ScanStopsFirst(c, rest, MIN_CHUNK_BYTES);
    }
    if IsBoundary(c, rest, end) {
      BoundaryIsUnique(c, rest, end, Cut(c, rest));
    }
  }

  /** In production the scan stops after byte `i` when 22 bits, past the average size 18, of the hash are zero. */
  ghost predicate Passes(gear: Gear, rest: seq<byte>, i: nat)
    requires MIN_CHUNK_BYTES <= i < |rest|
  {
    var hash := RollAll(gear, 0, rest[MIN_CHUNK_BYTES..i + 1]);
    MaskedBitsZero(hash, if i < AVG_CHUNK_BYTES then STRICT_BITS else LOOSE_BITS)
  }

  /** What the production masks cut: at the first hash with all masked bits zero, before the hard limit. */
  lemma FastCdcCuts(gear: Gear, rest: seq<byte>, end: nat)
    requires MIN_CHUNK_BYTES < end < Min(|rest|, MAX_CHUNK_BYTES)
    ensures Cut(FastCdc(gear), rest) == end
       <==> Passes(gear, rest, end - 1)
            && forall i | MIN_CHUNK_BYTES <= i < end - 1 :: !Passes(gear, rest, i)
  {
    hide FastCdc, Cut, Stops, Passes;
    var c := FastCdc(gear);
    CutIsBoundary(c, rest, end);
    FastCdcStops(gear, rest, end - 1);
    forall i: int | MIN_CHUNK_BYTES <= i < end - 1
      ensures Stops(c, rest, i) <==> Passes(gear, rest, i)
    {
      FastCdcStops(gear, rest, i);
    }
  }

  /**
   * The strict test, used before the average size, passes fewer hashes than the loose one used after it: one in
   * 4194304 against one in 262144, with the average of 1048576 between them.
   */
  lemma StrictPassesFewer()
    ensures Passing(Pow2(WIDTH), MaskOf(STRICT_BITS, STRICT_BITS)) * 4_194_304 == Pow2(WIDTH)
    ensures Passing(Pow2(WIDTH), MaskOf(LOOSE_BITS, LOOSE_BITS)) * 262_144 == Pow2(WIDTH)
    ensures 262_144 < AVG_CHUNK_BYTES < 4_194_304
  {
    hide MaskOf, Passing, Pow2;
    BitCountSetsTheShare(STRICT_BITS);
    BitCountSetsTheShare(LOOSE_BITS);
    Pow2Plus(10, 22);
    Pow2Plus(14, 18);
    Powers();
  }

  lemma Powers()
    ensures Pow2(22) == 4_194_304 && Pow2(18) == 262_144
  {
    hide Pow2;
    Pow2Of9();
    Pow2Plus(9, 9);
    Pow2Plus(18, 2);
    Pow2Plus(20, 2);
  }

  lemma Pow2Of9()
    ensures Pow2(9) == 512 && Pow2(2) == 4
  {
  }

  lemma FastCdcStops(gear: Gear, rest: seq<byte>, i: nat)
    requires MIN_CHUNK_BYTES <= i < |rest|
    ensures Stops(FastCdc(gear), rest, i) <==> Passes(gear, rest, i)
  {
    hide RollAll, And, MaskOf, MaskedBitsZero;
    var hash := RollAll(gear, 0, rest[MIN_CHUNK_BYTES..i + 1]);
    MaskTests(STRICT_BITS, hash);
    MaskTests(LOOSE_BITS, hash);
  }

  lemma BoundaryIsUnique(c: Cutter, rest: seq<byte>, a: nat, b: nat)
    requires IsBoundary(c, rest, a) && IsBoundary(c, rest, b)
    ensures a == b
  {
  }

  lemma ScanNext(c: Cutter, data: seq<byte>, start: nat, hash: u32, i: nat)
    requires start <= i < |data| && i - start < MAX_CHUNK_BYTES
    ensures var done := i - start;
            var next := Roll(c.gear, hash, data[i]);
            var stops := if done < AVG_CHUNK_BYTES then c.strict(next) else c.loose(next);
            Scan(c, data[start..], hash, done) == if stops then done + 1 else Scan(c, data[start..], next, done + 1)
  {
    hide Roll;
    assert data[start..][i - start] == data[i];
  }

  lemma ScanBounds(c: Cutter, rest: seq<byte>, hash: u32)
    ensures Cut(c, rest) == if |rest| <= MIN_CHUNK_BYTES then |rest| else Scan(c, rest, 0, MIN_CHUNK_BYTES)
    ensures var limit := Min(|rest|, MAX_CHUNK_BYTES); Scan(c, rest, hash, limit) == limit
  {
  }

  /** `nextBoundary`: two loops, the strict test before the average size and the loose one after. */
  method NextBoundary(c: Cutter, data: seq<byte>, start: nat) returns (end: nat)
    requires start <= |data|
    ensures end == start + Cut(c, data[start..])
  {
    hide Scan, Cut, Roll;
    ghost var rest := data[start..];
    ScanBounds(c, rest, 0);
    var remaining := |data| - start;
    if remaining <= MIN_CHUNK_BYTES {
      return |data|;
    }
    var hardLimit := start + Min(remaining, MAX_CHUNK_BYTES);
    var normalLimit := start + Min(remaining, AVG_CHUNK_BYTES);
    var hash: u32 := 0;
    var i := start + MIN_CHUNK_BYTES;
    while i < normalLimit
      invariant start + MIN_CHUNK_BYTES <= i <= normalLimit
      invariant Cut(c, rest) == Scan(c, rest, hash, i - start)
    {
      ScanNext(c, data, start, hash, i);
      hash := Roll(c.gear, hash, data[i]);
      if c.strict(hash) {
        return i + 1;
      }
      i := i + 1;
    }
    while i < hardLimit
      invariant normalLimit <= i <= hardLimit
      invariant Cut(c, rest) == Scan(c, rest, hash, i - start)
    {
      ScanNext(c, data, start, hash, i);
      hash := Roll(c.gear, hash, data[i]);
      if c.loose(hash) {
        return i + 1;
      }
      i := i + 1;
    }
    ScanBounds(c, rest, hash);
    end := hardLimit;
  }

  // ------------------------------------------------------------------
  // Chunks and manifests of a whole buffer
  // ------------------------------------------------------------------

  datatype Chunk = Chunk(hash: string, offset: nat, length: nat)

  datatype ChunkManifest = ChunkManifest(fileHash: string, totalBytes: nat, chunks: seq<Chunk>)

  /** The hex BLAKE3 of a byte string. */
  type Addresser = seq<byte> -> string

  /** The chunks of a byte string. */
  function Pieces(c: Cutter, data: seq<byte>): seq<seq<byte>> {
    if data == [] then []
    else
      var end := Cut(c, data);
      [data[..end]] + Pieces(c, data[end..])
  }

  function Placed(address: Addresser, pieces: seq<seq<byte>>, offset: nat): seq<Chunk> {
    if pieces == [] then []
    else [Chunk(address(pieces[0]), offset, |pieces[0]|)] + Placed(address, pieces[1..], offset + |pieces[0]|)
  }

  function ManifestOf(c: Cutter, address: Addresser, data: seq<byte>): ChunkManifest {
    ChunkManifest(address(data), |data|, Placed(address, Pieces(c, data), 0))
  }

  /** What remains to be placed once the first chunk is. */
  lemma PlaceFirst(c: Cutter, address: Addresser, data: seq<byte>, offset: nat)
    requires data != []
    ensures var end := Cut(c, data);
            Placed(address, Pieces(c, data), offset)
            == [Chunk(address(data[..end]), offset, end)] + Placed(address, Pieces(c, data[end..]), offset + end)
  {
    var end := Cut(c, data);
    assert Pieces(c, data)[1..] == Pieces(c, data[end..]);
  }

  // ------------------------------------------------------------------
  // Tiling and bounds
  // ------------------------------------------------------------------

  /** The chunks laid end to end are the input, none is empty or too long, and only the last may be short. */
  lemma {:induction false} PiecesTile(c: Cutter, data: seq<byte>)
    ensures var pieces := Pieces(c, data);
            && Concat(pieces) == data
            && (forall i | 0 <= i < |pieces| :: 0 < |pieces[i]| <= MAX_CHUNK_BYTES)
            && (forall i | 0 <= i < |pieces| - 1 :: MIN_CHUNK_BYTES < |pieces[i]|)
  {
    if data != [] {
      var end := Cut(c, data);
      var first, rest := data[..end], Pieces(c, data[end..]);
      PiecesTile(c, data[end..]);
      assert rest != [] ==> end < |data|;
      hide Cut, Concat, Pieces;
      Seqs.Split(data, end);
      FirstPiece(c, data);
      forall i | 0 < i < |rest| + 1
        ensures ([first] + rest)[i] == rest[i - 1]
      {
      }
    }
  }

  lemma FirstPiece(c: Cutter, data: seq<byte>)
    requires data != []
    ensures var (first, rest) := (data[..Cut(c, data)], Pieces(c, data[Cut(c, data)..]));
            Pieces(c, data) == [first] + rest && Concat([first] + rest) == first + Concat(rest)
  {
    hide Cut;
    var (first, rest) := (data[..Cut(c, data)], Pieces(c, data[Cut(c, data)..]));
    assert ([first] + rest)[1..] == rest;
  }

  /** Laid end to end the pieces are the input, and each ends at the first boundary of what is left from its start. */
  ghost predicate IsChunking(c: Cutter, data: seq<byte>, pieces: seq<seq<byte>>) {
    && Concat(pieces) == data
    && forall k | 0 <= k < |pieces| :: pieces[k] != [] && IsBoundary(c, Concat(pieces[k..]), |pieces[k]|)
  }

  lemma ChunkingCons(c: Cutter, data: seq<byte>, pieces: seq<seq<byte>>)
    requires pieces != []
    ensures IsChunking(c, data, pieces)
       <==> && pieces[0] != [] && IsBoundary(c, data, |pieces[0]|)
            && data == pieces[0] + Concat(pieces[1..]) && IsChunking(c, Concat(pieces[1..]), pieces[1..])
  {
    hide IsBoundary, Concat;
    var rest := pieces[1..];
    assert Concat(pieces) == pieces[0] + Concat(rest) by { ConcatCons(pieces); }
    assert pieces[0..] == pieces;
    assert forall k | 0 <= k < |rest| :: rest[k..] == pieces[k + 1..];
    if IsChunking(c, Concat(rest), rest) && pieces[0] != [] && IsBoundary(c, Concat(pieces), |pieces[0]|) {
      forall k | 0 <= k < |pieces|
        ensures pieces[k] != [] && IsBoundary(c, Concat(pieces[k..]), |pieces[k]|)
      {
        assert k > 0 ==> pieces[k..] == rest[k - 1..] && pieces[k] == rest[k - 1];
      }
    }
  }

  lemma ConcatCons(pieces: seq<seq<byte>>)
    requires pieces != []
    ensures Concat(pieces) == pieces[0] + Concat(pieces[1..])
  {
  }

  lemma CutFirst(c: Cutter, data: seq<byte>, first: seq<byte>, rest: seq<byte>)
    requires data == first + rest && first != []
    ensures IsBoundary(c, data, |first|) <==> Cut(c, data) == |first|
    ensures Cut(c, data) == |first| ==> Pieces(c, data) == [first] + Pieces(c, rest)
  {
    CutIsBoundary(c, data, |first|);
    assert data[..|first|] == first && data[|first|..] == rest;
  }

  /** And there is only one way to do that: the boundaries decide where every chunk ends. */
  lemma {:induction false} ChunkingIsUnique(c: Cutter, data: seq<byte>, pieces: seq<seq<byte>>)
    ensures IsChunking(c, data, pieces) <==> pieces == Pieces(c, data)
    decreases |data| + |pieces|
  {
    hide IsBoundary, Cut;
    if pieces == [] {
      NoPieces(c, data);
    } else if pieces[0] == [] {
      ChunkingCons(c, data, pieces);
      PiecesTile(c, data);
    } else {
      var first, rest := pieces[0], pieces[1..];
      ChunkingCons(c, data, pieces);
      if data == first + Concat(rest) {
        CutFirst(c, data, first, Concat(rest));
        ChunkingIsUnique(c, Concat(rest), rest);
        assert pieces == [first] + rest;
        assert ([first] + Pieces(c, Concat(rest)))[1..] == Pieces(c, Concat(rest));
        if pieces == Pieces(c, data) {
          FirstPiece(c, data);
        }
      } else if pieces == Pieces(c, data) {
        PiecesTile(c, data);
        ConcatCons(pieces);
      }
    }
  }

  lemma NoPieces(c: Cutter, data: seq<byte>)
    ensures IsChunking(c, data, []) <==> data == []
    ensures Pieces(c, data) == [] <==> data == []
  {
  }

  /** At most one chunk per MIN + 1 bytes, rounded up. */
  lemma {:induction false} PieceCount(c: Cutter, data: seq<byte>)
    ensures data != [] ==> (|Pieces(c, data)| - 1) * (MIN_CHUNK_BYTES + 1) < |data|
    ensures data == [] <==> Pieces(c, data) == []
  {
    if data != [] {
      var end := Cut(c, data);
      PieceCount(c, data[end..]);
      if end == |data| {
        assert Pieces(c, data[end..]) == [];
      }
    }
  }

  lemma FileFitsManifest(c: Cutter, data: seq<byte>, limit: nat)
    requires |data| <= limit * (MIN_CHUNK_BYTES + 1)
    ensures |Pieces(c, data)| <= limit
  {
    PieceCount(c, data);
    var n := |Pieces(c, data)|;
    if n > limit {
      assert false;
    }
  }

  /** Offsets are running totals: each chunk lies where its bytes lie in the input. */
  lemma {:induction false} PlacedAt(address: Addresser, pieces: seq<seq<byte>>, offset: nat, i: nat)
    requires i < |pieces|
    ensures |Placed(address, pieces, offset)| == |pieces|
    ensures Placed(address, pieces, offset)[i]
         == Chunk(address(pieces[i]), offset + |Concat(pieces[..i])|, |pieces[i]|)
  {
    if i > 0 {
      PlacedAt(address, pieces[1..], offset + |pieces[0]|, i - 1);
      assert pieces[..i] == [pieces[0]] + pieces[1..][..i - 1];
    } else {
      PlacedLength(address, pieces, offset);
    }
  }

  lemma {:induction false} PlacedLength(address: Addresser, pieces: seq<seq<byte>>, offset: nat)
    ensures |Placed(address, pieces, offset)| == |pieces|
  {
    if pieces != [] {
      PlacedLength(address, pieces[1..], offset + |pieces[0]|);
    }
  }

  // ------------------------------------------------------------------
  // Streaming
  // ------------------------------------------------------------------

  lemma {:induction false} ScanIsLocal(c: Cutter, rest: seq<byte>, more: seq<byte>, hash: u32, i: nat)
    requires MAX_CHUNK_BYTES <= |rest| && i <= MAX_CHUNK_BYTES
    ensures Scan(c, rest + more, hash, i) == Scan(c, rest, hash, i)
    decreases MAX_CHUNK_BYTES - i
  {
    if i < MAX_CHUNK_BYTES {
      assert (rest + more)[i] == rest[i];
      ScanIsLocal(c, rest, more, Roll(c.gear, hash, rest[i]), i + 1);
    }
  }

  /** A window of `MAX_CHUNK_BYTES` decides the boundary the whole file would. */
  lemma CutIsLocal(c: Cutter, window: seq<byte>, more: seq<byte>)
    requires MAX_CHUNK_BYTES <= |window| || more == []
    ensures Cut(c, window + more) == Cut(c, window)
  {
    if more == [] {
      assert window + more == window;
    } else {
      ScanIsLocal(c, window, more, 0, MIN_CHUNK_BYTES);
    }
  }

  /** Cutting a decidable window takes the first chunk of the whole remaining input. */
  lemma CutWindow(c: Cutter, address: Addresser, window: seq<byte>, more: seq<byte>, offset: nat)
    requires window != [] && (MAX_CHUNK_BYTES <= |window| || more == [])
    ensures var end := Cut(c, window);
            Placed(address, Pieces(c, window + more), offset)
            == [Chunk(address(window[..end]), offset, end)]
               + Placed(address, Pieces(c, window[end..] + more), offset + end)
  {
    var end := Cut(c, window);
    CutIsLocal(c, window, more);
    PlaceFirst(c, address, window + more, offset);
    Seqs.CutJoin(window, more, end);
  }

  /** The chunks found so far and those of the remaining input make up `target`; so they do one chunk later. */
  lemma TakeChunk(c: Cutter, address: Addresser, window: seq<byte>, more: seq<byte>, chunks: seq<Chunk>, offset: nat,
                  target: seq<Chunk>)
    requires window != [] && (MAX_CHUNK_BYTES <= |window| || more == [])
    requires target == chunks + Placed(address, Pieces(c, window + more), offset)
    ensures var end := Cut(c, window);
            && target == chunks + [Chunk(address(window[..end]), offset, end)]
                         + Placed(address, Pieces(c, window[end..] + more), offset + end)
            && window + more == window[..end] + (window[end..] + more)
  {
    var end := Cut(c, window);
    CutWindow(c, address, window, more, offset);
    Seqs.CutJoin(window, more, end);
    Seqs.Regroup(chunks, [Chunk(address(window[..end]), offset, end)],
                 Placed(address, Pieces(c, window[end..] + more), offset + end));
  }

  /** However the input goes on (if it may), its chunks are those found so far and those still to be found. */
  ghost predicate Undecided(final: bool, c: Cutter, address: Addresser, input: seq<byte>, pending: seq<byte>,
                            chunks: seq<Chunk>, offset: nat)
  {
    forall more | final ==> more == [] :: Accounted(c, address, input, pending, chunks, offset, more)
  }

  ghost predicate Accounted(c: Cutter, address: Addresser, input: seq<byte>, pending: seq<byte>,
                            chunks: seq<Chunk>, offset: nat, more: seq<byte>)
  {
    Placed(address, Pieces(c, input + more), 0) == chunks + Placed(address, Pieces(c, pending + more), offset)
  }

  lemma UndecidedNow(c: Cutter, address: Addresser, input: seq<byte>, chunks: seq<Chunk>, offset: nat)
    requires Undecided(true, c, address, input, [], chunks, offset)
    ensures Placed(address, Pieces(c, input), 0) == chunks
  {
    assert Accounted(c, address, input, [], chunks, offset, []);
    assert input + [] == input;
  }

  lemma UndecidedFinal(c: Cutter, address: Addresser, input: seq<byte>, pending: seq<byte>,
                       chunks: seq<Chunk>, offset: nat)
    requires Undecided(false, c, address, input, pending, chunks, offset)
    ensures Undecided(true, c, address, input, pending, chunks, offset)
  {
  }

  lemma PushAccounted(c: Cutter, address: Addresser, input: seq<byte>, pending: seq<byte>, data: seq<byte>,
                      chunks: seq<Chunk>, offset: nat, more: seq<byte>)
    requires Accounted(c, address, input, pending, chunks, offset, data + more)
    ensures Accounted(c, address, input + data, pending + data, chunks, offset, more)
  {
    Seqs.Regroup(input, data, more);
    Seqs.Regroup(pending, data, more);
  }

  lemma PushUndecided(c: Cutter, address: Addresser, input: seq<byte>, pending: seq<byte>, data: seq<byte>,
                      chunks: seq<Chunk>, offset: nat)
    requires Undecided(false, c, address, input, pending, chunks, offset)
    ensures Undecided(false, c, address, input + data, pending + data, chunks, offset)
  {
    forall more
      ensures Accounted(c, address, input + data, pending + data, chunks, offset, more)
    {
      assert Accounted(c, address, input, pending, chunks, offset, data + more);
      PushAccounted(c, address, input, pending, data, chunks, offset, more);
    }
  }

  lemma CutAccounted(c: Cutter, address: Addresser, input: seq<byte>, pending: seq<byte>, chunks: seq<Chunk>,
                     offset: nat, more: seq<byte>)
    requires Accounted(c, address, input, pending, chunks, offset, more)
    requires pending != [] && (MAX_CHUNK_BYTES <= |pending| || more == [])
    ensures var end := Cut(c, pending);
            Accounted(c, address, input, pending[end..],
                      chunks + [Chunk(address(pending[..end]), offset, end)], offset + end, more)
  {
    var end := Cut(c, pending);
    TakeChunk(c, address, pending, more, chunks, offset, Placed(address, Pieces(c, input + more), 0));
  }

  lemma CutUndecided(final: bool, c: Cutter, address: Addresser, input: seq<byte>, pending: seq<byte>,
                     chunks: seq<Chunk>, offset: nat)
    requires Undecided(final, c, address, input, pending, chunks, offset)
    requires pending != [] && (final || MAX_CHUNK_BYTES <= |pending|)
    ensures var end := Cut(c, pending);
            Undecided(final, c, address, input, pending[end..],
                      chunks + [Chunk(address(pending[..end]), offset, end)], offset + end)
  {
    hide Cut, Accounted;
    var end := Cut(c, pending);
    var rest, found := pending[end..], chunks + [Chunk(address(pending[..end]), offset, end)];
    var after := offset + end;
    forall more | final ==> more == []
      ensures Accounted(c, address, input, rest, found, after, more)
    {
      CutAccounted(c, address, input, pending, chunks, offset, more);
    }
  }

  // ------------------------------------------------------------------
  // The three implementations
  // ------------------------------------------------------------------

  /** `chunkBuffer`. */
  method ChunkBuffer(c: Cutter, address: Addresser, data: seq<byte>) returns (chunks: seq<Chunk>)
    ensures chunks == Placed(address, Pieces(c, data), 0)
  {
    chunks := [];
    var offset := 0;
    assert data[0..] == data;
    while offset < |data|
      invariant offset <= |data|
      invariant Undecided(true, c, address, data, data[offset..], chunks, offset)
    {
      var end := NextBoundary(c, data, offset);
      var slice := data[offset..end];
      CutUndecided(true, c, address, data, data[offset..], chunks, offset);
      Slices(data, offset, end);
      chunks := chunks + [Chunk(address(slice), offset, |slice|)];
      offset := end;
    }
    assert data[offset..] == [];
    UndecidedNow(c, address, data, chunks, offset);
  }

  lemma Slices(data: seq<byte>, from: nat, to: nat)
    requires from <= to <= |data|
    ensures data[from..][..to - from] == data[from..to]
    ensures data[from..][to - from..] == data[to..]
  {
  }

  /** One `read`: some bytes (none at the end of the stream), or an error. */
  datatype ReadOutcome = Got(bytes: seq<byte>) | Failed

  /** Everything a reader delivers before its end. */
  function Delivered(script: seq<ReadOutcome>): seq<byte> {
    if script == [] || script[0].Failed? || script[0].bytes == [] then []
    else script[0].bytes + Delivered(script[1..])
  }

  /** The reader errs before its end. */
  predicate Errs(script: seq<ReadOutcome>) {
    script != [] && (script[0].Failed? || (script[0].bytes != [] && Errs(script[1..])))
  }

  /** What the reader has left to deliver, and whether it will err first. */
  function Left(eof: bool, script: seq<ReadOutcome>): seq<byte> {
    if eof then [] else Delivered(script)
  }

  predicate WillErr(eof: bool, script: seq<ReadOutcome>) {
    !eof && Errs(script)
  }

  /** Everything known half-way through a stream: what is hashed, what is in the window, what is found. */
  ghost predicate Reading(c: Cutter, address: Addresser, script: seq<ReadOutcome>, eof: bool, todo: seq<ReadOutcome>,
                          input: seq<byte>, window: seq<byte>, chunks: seq<Chunk>, offset: nat)
  {
    && input + Left(eof, todo) == Delivered(script)
    && WillErr(eof, todo) == Errs(script)
    && Undecided(eof, c, address, input, window, chunks, offset)
  }

  lemma ReadMore(c: Cutter, address: Addresser, script: seq<ReadOutcome>, todo: seq<ReadOutcome>,
                 input: seq<byte>, window: seq<byte>, chunks: seq<Chunk>, offset: nat)
    requires Reading(c, address, script, false, todo, input, window, chunks, offset)
    requires todo != [] && todo[0].Got? && todo[0].bytes != []
    ensures Reading(c, address, script, false, todo[1..], input + todo[0].bytes, window + todo[0].bytes, chunks, offset)
  {
    PushUndecided(c, address, input, window, todo[0].bytes, chunks, offset);
    Seqs.Regroup(input, todo[0].bytes, Delivered(todo[1..]));
  }

  lemma CutReading(c: Cutter, address: Addresser, script: seq<ReadOutcome>, eof: bool, todo: seq<ReadOutcome>,
                   input: seq<byte>, hashed: seq<byte>, window: seq<byte>, chunks: seq<Chunk>, offset: nat)
    requires Reading(c, address, script, eof, todo, input, window, chunks, offset)
    requires hashed + window == input && |hashed| == offset
    requires window != [] && (eof || MAX_CHUNK_BYTES <= |window|)
    ensures var end := Cut(c, window);
            && Reading(c, address, script, eof, todo, input, window[end..],
                       chunks + [Chunk(address(window[..end]), offset, end)], offset + end)
            && hashed + window[..end] + window[end..] == input
            && offset + end <= |Delivered(script)|
  {
    var end := Cut(c, window);
    CutUndecided(eof, c, address, input, window, chunks, offset);
    Seqs.Split(window, end);
    Seqs.Regroup(hashed, window[..end], window[end..]);
  }

  lemma ReadingAtFirst(c: Cutter, address: Addresser, script: seq<ReadOutcome>)
    ensures Reading(c, address, script, false, script, [], [], [], 0)
  {
    forall more
      ensures Accounted(c, address, [], [], [], 0, more)
    {
    }
  }

  lemma ReadingAtEnd(c: Cutter, address: Addresser, script: seq<ReadOutcome>, todo: seq<ReadOutcome>, input: seq<byte>,
                     chunks: seq<Chunk>, offset: nat)
    requires Reading(c, address, script, true, todo, input, [], chunks, offset)
    ensures input == Delivered(script) && !Errs(script)
    ensures Placed(address, Pieces(c, input), 0) == chunks
  {
    UndecidedNow(c, address, input, chunks, offset);
    assert input + [] == input;
  }

  /** The refill: read until the window decides a boundary or the stream ends. */
  method Refill(c: Cutter, address: Addresser, ghost script: seq<ReadOutcome>, eof: bool, todo: seq<ReadOutcome>,
                ghost input: seq<byte>, window: seq<byte>, ghost chunks: seq<Chunk>, ghost offset: nat)
    returns (failed: bool, eof': bool, todo': seq<ReadOutcome>, window': seq<byte>, ghost got: seq<byte>)
    requires Reading(c, address, script, eof, todo, input, window, chunks, offset)
    ensures failed ==> Errs(script)
    ensures window' == window + got && (eof' || failed || MAX_CHUNK_BYTES <= |window'|)
    ensures Reading(c, address, script, eof', todo', input + got, window', chunks, offset)
  {
    failed, eof', todo', window', got := false, eof, todo, window, [];
    assert window + [] == window && input + [] == input;
    while !eof' && |window'| < MAX_CHUNK_BYTES
      invariant window' == window + got
      invariant Reading(c, address, script, eof', todo', input + got, window', chunks, offset)
      decreases !eof', |todo'|
    {
      if todo' == [] || todo'[0] == Got([]) {
        UndecidedFinal(c, address, input + got, window', chunks, offset);
        eof' := true;
      } else if todo'[0].Failed? {
        failed := true;
        return;
      } else {
        var bytes := todo'[0].bytes;
        ReadMore(c, address, script, todo', input + got, window', chunks, offset);
        Seqs.Regroup(input, got, bytes);
        Seqs.Regroup(window, got, bytes);
        got, window', todo' := got + bytes, window' + bytes, todo'[1..];
      }
    }
  }

  /**
   * `chunk_reader`: however the stream is split into reads, exactly the manifest of its bytes. `script` is
   * what the reader answers; past its end every read returns no bytes.
   */
  method ChunkReader(c: Cutter, address: Addresser, script: seq<ReadOutcome>) returns (r: Result<ChunkManifest, ()>)
    ensures r == if Errs(script) then Err(()) else Ok(ManifestOf(c, address, Delivered(script)))
  {
    ReadingAtFirst(c, address, script);
    hide Reading, Errs, Delivered, Cut, Pieces, Placed;
    // Everything read so far.
    ghost var input: seq<byte> := [];
    var todo, eof := script, false;
    var hashed: seq<byte> := [];
    var chunks: seq<Chunk> := [];
    var window: seq<byte> := [];
    var offset := 0;
    while true
      invariant Reading(c, address, script, eof, todo, input, window, chunks, offset)
      invariant hashed + window == input && |hashed| == offset <= |Delivered(script)|
      decreases |Delivered(script)| - offset
    {
      var failed;
      ghost var got;
      ghost var before := window;
      failed, eof, todo, window, got := Refill(c, address, script, eof, todo, input, window, chunks, offset);
      if failed {
        return Err(());
      }
      Seqs.Regroup(hashed, before, got);
      input := input + got;
      if window == [] {
        break;
      }
      var end := NextBoundary(c, window, 0);
      assert window[0..] == window;
      CutReading(c, address, script, eof, todo, input, hashed, window, chunks, offset);
      var slice := window[..end];
      hashed := hashed + slice;
      chunks := chunks + [Chunk(address(slice), offset, end)];
      offset := offset + end;
      window := window[end..];
    }
    ReadingAtEnd(c, address, script, todo, input, chunks, offset);
    assert hashed == input by { assert hashed + [] == hashed; }
    r := Ok(ChunkManifest(address(hashed), offset, chunks));
  }

  /** The incremental builder. It keeps less than one maximal chunk it has not yet decided. */
  class StreamingManifestBuilder {
    const cutter: Cutter
    const address: Addresser
    /** What the incremental file hasher has been fed. */
    var hashed: seq<byte>
    var pending: seq<byte>
    var chunks: seq<Chunk>
    var totalBytes: nat
    var chunkedBytes: nat
    var finished: bool

    /** Whatever is still to come, the chunks so far and those of the pending bytes are those of the whole. */
    ghost predicate Valid()
      reads this
    {
      && totalBytes == |hashed|
      && (!finished ==> |pending| < MAX_CHUNK_BYTES
                        && Undecided(false, cutter, address, hashed, pending, chunks, chunkedBytes))
    }

    constructor (c: Cutter, address: Addresser)
      ensures Valid() && cutter == c && this.address == address
      ensures hashed == [] && !finished
    {
      cutter, this.address := c, address;
      hashed, pending, chunks, totalBytes, chunkedBytes, finished := [], [], [], 0, 0, false;
    }

    /** Refused, and without effect, once the builder is finished. */
    method Push(data: seq<byte>) returns (ok: bool)
      requires Valid()
      modifies this
      ensures Valid() && finished == old(finished)
      ensures ok <==> !finished
      ensures hashed == if ok then old(hashed) + data else old(hashed)
    {
      if finished {
        return false;
      }
      ok := true;
      if data == [] {
        assert hashed + data == hashed;
        return;
      }
      PushUndecided(cutter, address, hashed, pending, data, chunks, chunkedBytes);
      hashed := hashed + data;
      totalBytes := totalBytes + |data|;
      pending := pending + data;
      Cutting(false);
    }

    /** The manifest of everything pushed, whatever the pushes were; only once. */
    method Finish() returns (r: Result<ChunkManifest, ()>)
      requires Valid()
      modifies this
      ensures Valid() && finished && hashed == old(hashed)
      ensures r == if old(finished) then Err(()) else Ok(ManifestOf(cutter, address, hashed))
    {
      if finished {
        return Err(());
      }
      finished := true;
      Cutting(true);
      UndecidedNow(cutter, address, hashed, chunks, chunkedBytes);
      r := Ok(ChunkManifest(address(hashed), totalBytes, chunks));
    }

    method Cutting(final: bool)
      requires Undecided(final, cutter, address, hashed, pending, chunks, chunkedBytes)
      modifies this`pending, this`chunks, this`chunkedBytes
      ensures if final then pending == [] else |pending| < MAX_CHUNK_BYTES
      ensures Undecided(final, cutter, address, hashed, pending, chunks, chunkedBytes)
    {
      hide Undecided, Cut;
      while pending != [] && (final || |pending| >= MAX_CHUNK_BYTES)
        invariant Undecided(final, cutter, address, hashed, pending, chunks, chunkedBytes)
        decreases |pending|
      {
        var end := NextBoundary(cutter, pending, 0);
        assert pending[0..] == pending;
        var bytes := pending[..end];
        CutUndecided(final, cutter, address, hashed, pending, chunks, chunkedBytes);
        chunks := chunks + [Chunk(address(bytes), chunkedBytes, |bytes|)];
        chunkedBytes := chunkedBytes + |bytes|;
        pending := pending[end..];
      }
    }
  }
}
