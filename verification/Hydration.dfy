/**
 * Rebuilding a file from its manifest: cached chunks first, the rest from a source that may answer anything.
 * Nothing is believed before it is checked, so what comes out is what the manifest addresses, and what is
 * left in the cache is sound, however the run ends.
 */
module Hydration {
  import opened Wrappers
  import opened Bytes
  import opened ContentAddresses
  import opened Chunker
  import opened ChunkCache

  const MAX_MANIFEST_CHUNKS: nat := 16384

  const U64: nat := 0x1_0000_0000_0000_0000

  /** Each error carries the index of the chunk it stopped at. */
  datatype HydrationError =
    | NotAFileHash
    | TooManyChunks
    | ChunkTooLong(i: nat)
    | SumOverflows
    | SumDiffers
    | NotAHash(i: nat)
    | OffsetDiffers(i: nat)
    | MissingChunk(i: nat)
    | WrongBytes(i: nat)
    | LengthDiffers(i: nat)
    | WriteFails(i: nat)
    | TotalDiffers
    | WrongFile

  /** What the source answers to its `n`-th request, for any history it may have had. */
  type Source = (nat, Digest) -> Option<seq<byte>>

  /** Whether the write of chunk `i` succeeds. */
  type Sink = nat -> bool

  function Sum(chunks: seq<Chunk>): nat {
    if chunks == [] then 0 else Sum(chunks[..|chunks| - 1]) + chunks[|chunks| - 1].length
  }

  // ------------------------------------------------------------------
  // Bounds
  // ------------------------------------------------------------------

  /** A manifest within the chunker's limits, whose parts add up to its whole. */
  ghost predicate Declares(m: ChunkManifest) {
    && |m.chunks| <= MAX_MANIFEST_CHUNKS
    && (forall i | 0 <= i < |m.chunks| :: m.chunks[i].length <= MAX_CHUNK_BYTES)
    && Sum(m.chunks) == m.totalBytes
  }

  /** The check of the declaration that stops with this error does fail. */
  ghost predicate BadlyDeclared(m: ChunkManifest, e: HydrationError) {
    || (e.TooManyChunks? && |m.chunks| > MAX_MANIFEST_CHUNKS)
    || (e.ChunkTooLong? && e.i < |m.chunks| && m.chunks[e.i].length > MAX_CHUNK_BYTES)
    || (e.SumDiffers? && Sum(m.chunks) != m.totalBytes)
  }

  /** `declared_bytes`. Its overflow check is there for a change of the limits: within them it never fails. */
  method DeclaredBytes(m: ChunkManifest) returns (r: Result<nat, HydrationError>)
    ensures r.Ok? <==> Declares(m)
    ensures r.Ok? ==> r.value == Sum(m.chunks)
    ensures r.Err? ==> BadlyDeclared(m, r.error)
  {
    if |m.chunks| > MAX_MANIFEST_CHUNKS {
      return Err(TooManyChunks);
    }
    var total := 0;
    for i := 0 to |m.chunks|
      invariant total == Sum(m.chunks[..i]) <= i * MAX_CHUNK_BYTES
      invariant forall j | 0 <= j < i :: m.chunks[j].length <= MAX_CHUNK_BYTES
    {
      if m.chunks[i].length > MAX_CHUNK_BYTES {
        return Err(ChunkTooLong(i));
      }
      assert m.chunks[..i + 1][..i] == m.chunks[..i];
      if total + m.chunks[i].length >= U64 {
        assert false;
        return Err(SumOverflows);
      }
      total := total + m.chunks[i].length;
    }
    assert m.chunks[..|m.chunks|] == m.chunks;
    if total != m.totalBytes {
      return Err(SumDiffers);
    }
    r := Ok(total);
  }

  // ------------------------------------------------------------------
  // What a success and a failure mean
  // ------------------------------------------------------------------

  /** Chunk `i` lies in `out` where the chunks before it end, and its bytes there hash to its address. */
  ghost predicate ChunkInPlace(blake: Blake, chunks: seq<Chunk>, i: nat, out: seq<byte>)
    requires i < |chunks|
  {
    var (from, to) := (Sum(chunks[..i]), Sum(chunks[..i]) + chunks[i].length);
    && chunks[i].offset == from
    && to <= |out|
    && ParseHash(chunks[i].hash) == Some(blake(out[from..to]))
  }

  ghost predicate Assembled(blake: Blake, m: ChunkManifest, out: seq<byte>) {
    && Declares(m)
    && |out| == m.totalBytes
    && (forall i | 0 <= i < |m.chunks| :: ChunkInPlace(blake, m.chunks, i, out))
    && ParseHash(m.fileHash) == Some(blake(out))
  }

  /** Every failure names a real defect of the manifest, the source or the sink. */
  ghost predicate Justified(blake: Blake, m: ChunkManifest, source: Source, sink: Sink, e: HydrationError) {
    match e
    case NotAFileHash => ParseHash(m.fileHash).None?
    case TooManyChunks | SumDiffers | ChunkTooLong(_) => BadlyDeclared(m, e)
    case NotAHash(i) => i < |m.chunks| && ParseHash(m.chunks[i].hash).None?
    case OffsetDiffers(i) => i < |m.chunks| && m.chunks[i].offset != Sum(m.chunks[..i])
    case MissingChunk(i) =>
      i < |m.chunks| && exists n, h :: ParseHash(m.chunks[i].hash) == Some(h) && source(n, h).None?
    case WrongBytes(i) =>
      i < |m.chunks| && exists n, h ::
        ParseHash(m.chunks[i].hash) == Some(h) && source(n, h).Some? && blake(source(n, h).value) != h
    case LengthDiffers(i) =>
      i < |m.chunks| && exists bytes ::
        ParseHash(m.chunks[i].hash) == Some(blake(bytes)) && |bytes| != m.chunks[i].length
    case WriteFails(i) => !sink(i)
    case WrongFile =>
      exists out ::
        && |out| == Sum(m.chunks)
        && (forall i | 0 <= i < |m.chunks| :: ChunkInPlace(blake, m.chunks, i, out))
        && ParseHash(m.fileHash) != Some(blake(out))
    case SumOverflows | TotalDiffers => false
  }

  /** What a hydration promises, whatever the source, the sink and the cache did. */
  ghost predicate Outcome(blake: Blake, m: ChunkManifest, source: Source, sink: Sink, r: Result<(), HydrationError>,
                          out: seq<byte>)
  {
    if r.Ok? then Assembled(blake, m, out) else Justified(blake, m, source, sink, r.error)
  }

  lemma InPlaceStays(blake: Blake, chunks: seq<Chunk>, i: nat, out: seq<byte>, more: seq<byte>)
    requires i < |chunks| && ChunkInPlace(blake, chunks, i, out)
    ensures ChunkInPlace(blake, chunks, i, out + more)
  {
    var (from, to) := (Sum(chunks[..i]), Sum(chunks[..i]) + chunks[i].length);
    assert (out + more)[from..to] == out[from..to];
  }

  lemma NextInPlace(blake: Blake, chunks: seq<Chunk>, i: nat, out: seq<byte>, bytes: seq<byte>)
    requires i < |chunks| && |out| == Sum(chunks[..i]) == chunks[i].offset && |bytes| == chunks[i].length
    requires ParseHash(chunks[i].hash) == Some(blake(bytes))
    ensures ChunkInPlace(blake, chunks, i, out + bytes)
    ensures |out + bytes| == Sum(chunks[..i + 1])
  {
    assert (out + bytes)[|out|..|out| + |bytes|] == bytes;
    assert chunks[..i + 1][..i] == chunks[..i];
  }

  /** What a chunk's address stands for in a valid cache. */
  lemma HeldIsAddressed(blake: Blake, list: seq<Stored>, h: Digest)
    requires Addressed(blake, list) && Holds(list, h)
    ensures blake(list[Find(list, h)].data) == h
  {
    assert list[Find(list, h)] in list;
  }

  lemma UsedHolds(list: seq<Stored>, h: Digest, g: Digest)
    requires Holds(list, h) && Holds(list, g)
    ensures Holds(Used(list, h), g)
  {
    var i, j := Find(list, h), Find(list, g);
    var used := Used(list, h);
    if i == j {
      assert used[|used| - 1].hash == g;
    } else {
      assert used[if j < i then j else j - 1] == list[j];
    }
  }

  /** Every chunk of the manifest is in the cache. */
  ghost predicate AllHeld(chunks: seq<Chunk>, list: seq<Stored>) {
    forall i, h | 0 <= i < |chunks| && ParseHash(chunks[i].hash) == Some(h) :: Holds(list, h)
  }

  // ------------------------------------------------------------------
  // Hydration
  // ------------------------------------------------------------------

  /** The bytes of chunk `i`: from the cache, or from the source, verified and then cached. */
  method ObtainChunk(i: nat, h: Digest, cache: Cache, source: Source, fetches: nat)
    returns (r: Result<seq<byte>, HydrationError>, fetches': nat)
    requires cache.Valid()
    modifies cache
    ensures cache.Valid()
    ensures r.Ok? ==> cache.blake(r.value) == h
    ensures r.Err? ==>
              || (r.error == MissingChunk(i) && source(fetches, h).None?)
              || (r.error == WrongBytes(i) && source(fetches, h).Some? && cache.blake(source(fetches, h).value) != h)
    ensures Holds(old(cache.list), h) ==> r.Ok? && fetches' == fetches && cache.list == Used(old(cache.list), h)
    ensures r.Ok? ==> Uses(old(cache.list), cache.list, Stored(h, r.value), cache.maxBytes)
    ensures !Holds(old(cache.list), h) ==> fetches' == fetches + 1
    ensures r.Ok? && !Holds(old(cache.list), h) ==>
              && source(fetches, h) == Some(r.value)
              && cache.list == Inserted(old(cache.list), Stored(h, r.value), cache.maxBytes)
    ensures r.Err? ==> cache.list == old(cache.list)
  {
    fetches' := fetches;
    ghost var before := cache.list;
    assert Addressed(cache.blake, before);
    var cached := cache.Get(h);
    if cached.Some? {
      HeldIsAddressed(cache.blake, before, h);
      return Ok(cached.value), fetches';
    }
    fetches' := fetches + 1;
    var fetched := source(fetches, h);
    if fetched.None? {
      return Err(MissingChunk(i)), fetches';
    }
    var actual := cache.blake(fetched.value);
    if actual != h {
      return Err(WrongBytes(i)), fetches';
    }
    var inserted := cache.Insert(fetched.value);
    r := Ok(fetched.value);
  }

  lemma UseKeepsHeld(chunks: seq<Chunk>, list: seq<Stored>, i: nat, h: Digest)
    requires i < |chunks| && ParseHash(chunks[i].hash) == Some(h)
    ensures AllHeld(chunks, list) ==> Holds(list, h) && AllHeld(chunks, Used(list, h))
  {
    hide ParseHash, Holds, Used;
    if AllHeld(chunks, list) {
      forall j, g | 0 <= j < |chunks| && ParseHash(chunks[j].hash) == Some(g)
        ensures Holds(Used(list, h), g)
      {
        UsedHolds(list, h, g);
      }
    }
  }

  lemma FetchJustified(blake: Blake, m: ChunkManifest, source: Source, sink: Sink, i: nat, h: Digest, n: nat,
                       e: HydrationError)
    requires i < |m.chunks| && ParseHash(m.chunks[i].hash) == Some(h)
    requires || (e == MissingChunk(i) && source(n, h).None?)
             || (e == WrongBytes(i) && source(n, h).Some? && blake(source(n, h).value) != h)
    ensures Justified(blake, m, source, sink, e)
  {
    hide ParseHash;
  }

  lemma LengthJustified(blake: Blake, m: ChunkManifest, source: Source, sink: Sink, i: nat, bytes: seq<byte>)
    requires i < |m.chunks| && ParseHash(m.chunks[i].hash) == Some(blake(bytes)) && |bytes| != m.chunks[i].length
    ensures Justified(blake, m, source, sink, LengthDiffers(i))
  {
    hide ParseHash;
  }

  /** One turn of the loop, up to the write. */
  method NextChunk(m: ChunkManifest, i: nat, written: nat, cache: Cache, source: Source, ghost sink: Sink, fetches: nat)
    returns (r: Result<seq<byte>, HydrationError>, fetches': nat)
    requires cache.Valid() && i < |m.chunks| && written == Sum(m.chunks[..i])
    modifies cache
    ensures cache.Valid()
    ensures r.Ok? ==>
              && m.chunks[i].offset == written && |r.value| == m.chunks[i].length
              && ParseHash(m.chunks[i].hash) == Some(cache.blake(r.value))
    ensures r.Err? ==> Justified(cache.blake, m, source, sink, r.error)
    ensures r.Ok? ==>
              Uses(old(cache.list), cache.list, Stored(ParseHash(m.chunks[i].hash).value, r.value), cache.maxBytes)
    ensures AllHeld(m.chunks, old(cache.list)) ==> AllHeld(m.chunks, cache.list) && fetches' == fetches
  {
    fetches' := fetches;
    var chunk := m.chunks[i];
    var hash := ParseHash(chunk.hash);
    if hash.None? {
      return Err(NotAHash(i)), fetches';
    }
    var h := hash.value;
    if chunk.offset != written {
      return Err(OffsetDiffers(i)), fetches';
    }
    hide *;
    UseKeepsHeld(m.chunks, cache.list, i, h);
    r, fetches' := ObtainChunk(i, h, cache, source, fetches);
    if r.Err? {
      FetchJustified(cache.blake, m, source, sink, i, h, fetches, r.error);
    } else if |r.value| != chunk.length {
      LengthJustified(cache.blake, m, source, sink, i, r.value);
      r := Err(LengthDiffers(i));
    }
  }

  /** The defects that show outside the chunks. */
  lemma OutsideJustified(blake: Blake, m: ChunkManifest, source: Source, sink: Sink, e: HydrationError)
    requires || (e == NotAFileHash && ParseHash(m.fileHash).None?)
             || BadlyDeclared(m, e)
             || (e.WriteFails? && !sink(e.i))
    ensures Justified(blake, m, source, sink, e)
  {
    hide ParseHash, Sum;
  }

  /** `hydrate_into`. */
  method HydrateInto(m: ChunkManifest, cache: Cache, source: Source, sink: Sink)
    returns (r: Result<(), HydrationError>, out: seq<byte>, fetches: nat)
    requires cache.Valid()
    modifies cache
    ensures cache.Valid() && Outcome(cache.blake, m, source, sink, r, out)
    ensures AllHeld(m.chunks, old(cache.list)) ==> fetches == 0
    ensures r.Ok? ==> HeldIfItFits(m.chunks, out, cache.list, cache.maxBytes)
  {
    hide ParseHash, Addressed, AllHeld, ChunkInPlace, Justified, cache.Valid, HashHex, HeldIfItFits, KeepsUp, Uses;
    out, fetches := [], 0;
    var expected := ParseHash(m.fileHash);
    if expected.None? {
      OutsideJustified(cache.blake, m, source, sink, NotAFileHash);
      return Err(NotAFileHash), out, fetches;
    }
    var declared := DeclaredBytes(m);
    if declared.Err? {
      OutsideJustified(cache.blake, m, source, sink, declared.error);
      return Err(declared.error), out, fetches;
    }
    var total := declared.value;
    // What the file hasher has been fed.
    var hashed: seq<byte> := [];
    var written := 0;
    ghost var trace: seq<Stored> := [];
    NothingUsed(m.chunks, cache.list, cache.maxBytes);
    for i := 0 to |m.chunks|
      invariant cache.Valid() && KeepsUp(m.chunks[..i], out, trace, cache.list, cache.maxBytes)
      invariant written == |out| == Sum(m.chunks[..i]) && hashed == out
      invariant forall j | 0 <= j < i :: ChunkInPlace(cache.blake, m.chunks, j, out)
      invariant AllHeld(m.chunks, old(cache.list)) ==> AllHeld(m.chunks, cache.list) && fetches == 0
    {
      var next;
      ghost var before := cache.list;
      HeldOnce(cache);
      next, fetches := NextChunk(m, i, written, cache, source, sink, fetches);
      if next.Err? {
        return Err(next.error), out, fetches;
      }
      var bytes := next.value;
      hashed := hashed + bytes;
      if !sink(i) {
        OutsideJustified(cache.blake, m, source, sink, WriteFails(i));
        return Err(WriteFails(i)), out, fetches;
      }
      NextInPlace(cache.blake, m.chunks, i, out, bytes);
      ghost var used := Stored(ParseHash(m.chunks[i].hash).value, bytes);
      StillKeepsUp(m.chunks, i, out, bytes, trace, used, before, cache.list, cache.maxBytes);
      trace := trace + [used];
      AllStay(cache.blake, m.chunks, i, out, bytes);
      out := out + bytes;
      written := written + |bytes|;
    }
    assert m.chunks[..|m.chunks|] == m.chunks;
    if written != total {
      assert false;
      return Err(TotalDiffers), out, fetches;
    }
    if cache.blake(hashed) != expected.value {
      WrongFileJustified(cache.blake, m, source, sink, out);
      return Err(WrongFile), out, fetches;
    }
    TraceHolds(m.chunks, out, trace, cache.list, cache.maxBytes);
    r := Ok(());
  }

  // What a hydration leaves in the cache.

  /** The chunks as they were used, one after the other, with their bytes. */
  ghost predicate IsTrace(chunks: seq<Chunk>, out: seq<byte>, trace: seq<Stored>) {
    |trace| == |chunks| && forall i | 0 <= i < |chunks| :: IsUse(chunks, i, out, trace[i])
  }

  ghost predicate IsUse(chunks: seq<Chunk>, i: nat, out: seq<byte>, s: Stored)
    requires i < |chunks|
  {
    var from := Sum(chunks[..i]);
    && ParseHash(chunks[i].hash) == Some(s.hash)
    && from + chunks[i].length <= |out| && s.data == out[from..from + chunks[i].length]
  }

  /** When the distinct chunks fit together in the cache, they are all held. */
  ghost predicate HeldIfItFits(chunks: seq<Chunk>, out: seq<byte>, list: seq<Stored>, maxBytes: nat) {
    forall trace | IsTrace(chunks, out, trace) && FitsThroughout(trace, maxBytes) :: AllHeld(chunks, list)
  }

  /** The chunks so far, and that the cache has the recent ones as far as they fit. */
  ghost predicate KeepsUp(chunks: seq<Chunk>, out: seq<byte>, trace: seq<Stored>, list: seq<Stored>, maxBytes: nat) {
    IsTrace(chunks, out, trace) && (FitsThroughout(trace, maxBytes) ==> IsTail(RecentOf(trace), list))
  }

  lemma NothingUsed(chunks: seq<Chunk>, list: seq<Stored>, maxBytes: nat)
    ensures KeepsUp(chunks[..0], [], [], list, maxBytes)
  {
  }

  lemma StillKeepsUp(chunks: seq<Chunk>, i: nat, out: seq<byte>, bytes: seq<byte>, trace: seq<Stored>, s: Stored,
                     list: seq<Stored>, after: seq<Stored>, maxBytes: nat)
    requires i < |chunks| && KeepsUp(chunks[..i], out, trace, list, maxBytes) && |out| == Sum(chunks[..i])
    requires |bytes| == chunks[i].length && s.data == bytes && ParseHash(chunks[i].hash) == Some(s.hash)
    requires Unrepeated(list) && Uses(list, after, s, maxBytes)
    ensures KeepsUp(chunks[..i + 1], out + bytes, trace + [s], after, maxBytes)
  {
    hide IsTrace, FitsThroughout, RecentOf, IsTail, Uses, ParseHash;
    TraceGrows(chunks, i, out, bytes, trace, s);
    TailGrows(list, after, trace, s, maxBytes);
  }

  lemma HeldOnce(cache: Cache)
    requires cache.Valid()
    ensures Unrepeated(cache.list)
  {
  }

  lemma TraceGrows(chunks: seq<Chunk>, i: nat, out: seq<byte>, bytes: seq<byte>, trace: seq<Stored>, s: Stored)
    requires i < |chunks| && IsTrace(chunks[..i], out, trace) && |out| == Sum(chunks[..i])
    requires |bytes| == chunks[i].length && s.data == bytes && ParseHash(chunks[i].hash) == Some(s.hash)
    ensures IsTrace(chunks[..i + 1], out + bytes, trace + [s])
  {
    hide ParseHash;
    forall j | 0 <= j <= i
      ensures IsUse(chunks[..i + 1], j, out + bytes, (trace + [s])[j])
    {
      assert chunks[..i + 1][..j] == chunks[..j];
      if j < i {
        assert chunks[..i][..j] == chunks[..j];
        assert IsUse(chunks[..i], j, out, trace[j]);
        var from := Sum(chunks[..j]);
        assert (out + bytes)[from..from + chunks[j].length] == out[from..from + chunks[j].length];
      } else {
        assert (out + bytes)[|out|..|out| + |bytes|] == bytes;
      }
    }
  }

  lemma TailGrows(list: seq<Stored>, after: seq<Stored>, trace: seq<Stored>, s: Stored, maxBytes: nat)
    requires Unrepeated(list) && Uses(list, after, s, maxBytes)
    requires FitsThroughout(trace, maxBytes) ==> IsTail(RecentOf(trace), list)
    ensures FitsThroughout(trace + [s], maxBytes) ==> IsTail(RecentOf(trace + [s]), after)
  {
    hide Uses, FitsThroughout, IsTail, RecentOf;
    if FitsThroughout(trace + [s], maxBytes) {
      FitsBefore(trace, [s], maxBytes);
      RecentStay(list, after, trace, s, maxBytes);
    }
  }

  lemma SameUse(chunks: seq<Chunk>, i: nat, out: seq<byte>, s: Stored, u: Stored)
    requires i < |chunks| && IsUse(chunks, i, out, s) && IsUse(chunks, i, out, u)
    ensures s == u
  {
  }

  /** When the distinct chunks of the manifest fit together, they are all in the cache afterwards. */
  lemma TraceHolds(chunks: seq<Chunk>, out: seq<byte>, trace: seq<Stored>, list: seq<Stored>, maxBytes: nat)
    requires KeepsUp(chunks, out, trace, list, maxBytes)
    ensures HeldIfItFits(chunks, out, list, maxBytes)
  {
    forall other | IsTrace(chunks, out, other) && FitsThroughout(other, maxBytes)
      ensures AllHeld(chunks, list)
    {
      hide FitsThroughout, IsUse, ParseHash, RecentOf, Holds;
      forall i | 0 <= i < |chunks|
        ensures trace[i] == other[i]
      {
        SameUse(chunks, i, out, trace[i], other[i]);
      }
      assert trace == other;
      forall i, h | 0 <= i < |chunks| && ParseHash(chunks[i].hash) == Some(h)
        ensures Holds(list, h)
      {
        UseHash(chunks, i, out, trace[i]);
        UsedIsHeld(trace, i, list);
      }
    }
  }

  lemma UseHash(chunks: seq<Chunk>, i: nat, out: seq<byte>, s: Stored)
    requires i < |chunks| && IsUse(chunks, i, out, s)
    ensures ParseHash(chunks[i].hash) == Some(s.hash)
  {
  }

  lemma UsedIsHeld(trace: seq<Stored>, i: nat, list: seq<Stored>)
    requires i < |trace| && IsTail(RecentOf(trace), list)
    ensures Holds(list, trace[i].hash)
  {
    RecentHolds(trace, i);
    var recent := RecentOf(trace);
    var j :| 0 <= j < |recent| && recent[j].hash == trace[i].hash;
    assert list[|list| - |recent| + j] == list[|list| - |recent|..][j];
  }

  lemma {:induction false} RecentHolds(trace: seq<Stored>, i: nat)
    requires i < |trace|
    ensures Holds(RecentOf(trace), trace[i].hash)
  {
    var rest, last := trace[..|trace| - 1], trace[|trace| - 1];
    var dropped := WithoutHash(RecentOf(rest), last.hash);
    assert RecentOf(trace) == dropped + [last];
    if trace[i].hash == last.hash {
      assert (dropped + [last])[|dropped|] == last;
    } else {
      RecentHolds(rest, i);
      var s := RecentOf(rest)[Find(RecentOf(rest), trace[i].hash)];
      DroppedIsLeft(RecentOf(rest), last.hash, s);
      var j :| 0 <= j < |dropped| && dropped[j] == s;
      assert (dropped + [last])[j] == s;
    }
  }

  lemma AllStay(blake: Blake, chunks: seq<Chunk>, i: nat, out: seq<byte>, more: seq<byte>)
    requires i <= |chunks| && forall j | 0 <= j < i :: ChunkInPlace(blake, chunks, j, out)
    ensures forall j | 0 <= j < i :: ChunkInPlace(blake, chunks, j, out + more)
  {
    forall j | 0 <= j < i
      ensures ChunkInPlace(blake, chunks, j, out + more)
    {
      InPlaceStays(blake, chunks, j, out, more);
    }
  }

  lemma WrongFileJustified(blake: Blake, m: ChunkManifest, source: Source, sink: Sink, out: seq<byte>)
    requires |out| == Sum(m.chunks) && ParseHash(m.fileHash) != Some(blake(out))
    requires forall i | 0 <= i < |m.chunks| :: ChunkInPlace(blake, m.chunks, i, out)
    ensures Justified(blake, m, source, sink, WrongFile)
  {
  }

  // ------------------------------------------------------------------
  // Hydrating to a path
  // ------------------------------------------------------------------

  datatype PathError = Hydrating(error: HydrationError) | Io

  /** Which of the file-system calls around a hydration succeed. */
  datatype Calls = Calls(parent: bool, create: bool, flush: bool, remove: bool, rename: bool)

  class Disk<Path(==)> {
    var files: map<Path, seq<byte>>

    constructor (files: map<Path, seq<byte>>)
      ensures this.files == files
    {
      this.files := files;
    }

    /**
     * `hydrate_to_path`: the destination is replaced by a whole verified file or not at all, and no other
     * file changes. After a failure a temporary file stays behind exactly when it was created and the call owed
     * to it failed: the removal after a failed hydration or flush, the rename after a good one.
     */
    method HydrateToPath(m: ChunkManifest, cache: Cache, source: Source, sink: Sink, dest: Path, temp: Path,
                         calls: Calls)
      returns (r: Result<(), PathError>)
      requires cache.Valid() && temp != dest
      modifies cache, this
      ensures cache.Valid()
      ensures r.Ok? ==> dest in files && Assembled(cache.blake, m, files[dest])
                        && files == (old(files) - {temp})[dest := files[dest]]
      ensures r.Err? ==> files - {temp} == old(files) - {temp}
      ensures r.Err? && temp !in old(files) ==>
                (temp in files <==>
                   && calls.parent && calls.create
                   && if r.error.Hydrating? || !calls.flush then !calls.remove else !calls.rename)
      ensures r.Err? && r.error.Hydrating? ==> Justified(cache.blake, m, source, sink, r.error.error)
    {
      hide cache.Valid, Assembled, Justified;
      if !calls.parent {
        return Err(Io);
      }
      var failure: Option<PathError> := Some(Io);
      if calls.create {
        files := files[temp := []];
        var hydrated, out, _ := HydrateInto(m, cache, source, sink);
        files := files[temp := out];
        failure := if hydrated.Err? then Some(Hydrating(hydrated.error)) else if calls.flush then None else Some(Io);
      }
      if failure.Some? {
        if calls.remove {
          files := files - {temp};
        }
        return Err(failure.value);
      }
      if !calls.rename {
        return Err(Io);
      }
      files := (files - {temp})[dest := files[temp]];
      r := Ok(());
    }
  }

  // ------------------------------------------------------------------
  // From chunking to hydration and back
  // ------------------------------------------------------------------

  /** The hex address of a byte string. */
  function HexAddress(blake: Blake): Addresser {
    (bytes: seq<byte>) => HashHex(blake(bytes))
  }

  /** No other byte string has the address of one of these chunks. */
  ghost predicate PreimageFree(blake: Blake, pieces: seq<seq<byte>>) {
    forall i, bytes | 0 <= i < |pieces| && blake(bytes) == blake(pieces[i]) :: bytes == pieces[i]
  }

  /** A source that has these chunks. */
  ghost predicate Honest(blake: Blake, pieces: seq<seq<byte>>, source: Source) {
    forall n, i | 0 <= i < |pieces| :: source(n, blake(pieces[i])) == Some(pieces[i])
  }

  ghost predicate PlacedPiece(blake: Blake, chunks: seq<Chunk>, pieces: seq<seq<byte>>, i: nat)
    requires i < |chunks| == |pieces|
  {
    && chunks[i].offset == Sum(chunks[..i]) == |Concat(pieces[..i])|
    && chunks[i].length == |pieces[i]|
    && ParseHash(chunks[i].hash) == Some(blake(pieces[i]))
  }

  lemma {:induction false} SumIsConcat(address: Addresser, pieces: seq<seq<byte>>, k: nat)
    requires k <= |pieces|
    ensures |Placed(address, pieces, 0)| == |pieces|
    ensures Sum(Placed(address, pieces, 0)[..k]) == |Concat(pieces[..k])|
  {
    PlacedLength(address, pieces, 0);
    var chunks := Placed(address, pieces, 0);
    if k > 0 {
      SumIsConcat(address, pieces, k - 1);
      PlacedAt(address, pieces, 0, k - 1);
      assert chunks[..k][..k - 1] == chunks[..k - 1];
      assert pieces[..k] == pieces[..k - 1] + [pieces[k - 1]];
      ConcatSnoc(pieces[..k - 1], pieces[k - 1]);
    }
  }

  lemma PlacedPieces(blake: Blake, pieces: seq<seq<byte>>, i: nat)
    requires i < |pieces|
    ensures |Placed(HexAddress(blake), pieces, 0)| == |pieces|
    ensures PlacedPiece(blake, Placed(HexAddress(blake), pieces, 0), pieces, i)
  {
    SumIsConcat(HexAddress(blake), pieces, i);
    PlacedAt(HexAddress(blake), pieces, 0, i);
    AddressRoundTrip(HashHex(blake(pieces[i])), blake(pieces[i]));
  }

  /** A chunked file is within bounds exactly when it has no more chunks than a manifest may hold. */
  lemma ChunkedDeclares(c: Cutter, blake: Blake, data: seq<byte>)
    ensures Declares(ManifestOf(c, HexAddress(blake), data)) <==> |Pieces(c, data)| <= MAX_MANIFEST_CHUNKS
    ensures |data| <= MAX_MANIFEST_CHUNKS * (MIN_CHUNK_BYTES + 1) ==> Declares(ManifestOf(c, HexAddress(blake), data))
  {
    var pieces := Pieces(c, data);
    var m := ManifestOf(c, HexAddress(blake), data);
    PiecesTile(c, data);
    SumIsConcat(HexAddress(blake), pieces, |pieces|);
    assert m.chunks[..|m.chunks|] == m.chunks && pieces[..|pieces|] == pieces;
    forall i | 0 <= i < |m.chunks|
      ensures m.chunks[i].length <= MAX_CHUNK_BYTES
    {
      PlacedPieces(blake, pieces, i);
    }
    if |data| <= MAX_MANIFEST_CHUNKS * (MIN_CHUNK_BYTES + 1) {
      FileFitsManifest(c, data, MAX_MANIFEST_CHUNKS);
    }
  }

  /** Chunks in their places, with addresses no other bytes have, are the file. */
  lemma {:induction false} InPlaceIsPrefix(blake: Blake, pieces: seq<seq<byte>>, out: seq<byte>, k: nat)
    requires k <= |pieces| == |Placed(HexAddress(blake), pieces, 0)| && PreimageFree(blake, pieces)
    requires forall i | 0 <= i < |pieces| :: ChunkInPlace(blake, Placed(HexAddress(blake), pieces, 0), i, out)
    ensures Concat(pieces[..k]) <= out
  {
    if k == 0 {
      assert pieces[..0] == [];
    } else {
      hide *;
      InPlaceIsPrefix(blake, pieces, out, k - 1);
      PieceInPlace(blake, pieces, out, k - 1);
      assert pieces[..k] == pieces[..k - 1] + [pieces[k - 1]];
      ConcatSnoc(pieces[..k - 1], pieces[k - 1]);
      LongerPrefix(Concat(pieces[..k - 1]), pieces[k - 1], out);
    }
  }

  lemma LongerPrefix(before: seq<byte>, piece: seq<byte>, out: seq<byte>)
    requires before <= out && |before| + |piece| <= |out| && out[|before|..|before| + |piece|] == piece
    ensures before + piece <= out
  {
    assert out[..|before| + |piece|] == out[..|before|] + out[|before|..|before| + |piece|];
  }

  lemma PieceInPlace(blake: Blake, pieces: seq<seq<byte>>, out: seq<byte>, i: nat)
    requires i < |pieces| == |Placed(HexAddress(blake), pieces, 0)| && PreimageFree(blake, pieces)
    requires ChunkInPlace(blake, Placed(HexAddress(blake), pieces, 0), i, out)
    ensures var from := |Concat(pieces[..i])|;
            from + |pieces[i]| <= |out| && out[from..from + |pieces[i]|] == pieces[i]
  {
    hide Placed, Concat, ParseHash;
    PlacedPieces(blake, pieces, i);
  }

  lemma AssembledIsData(c: Cutter, blake: Blake, data: seq<byte>, out: seq<byte>)
    requires PreimageFree(blake, Pieces(c, data))
    requires var chunks := ManifestOf(c, HexAddress(blake), data).chunks;
             |out| == Sum(chunks) && forall i | 0 <= i < |chunks| :: ChunkInPlace(blake, chunks, i, out)
    ensures out == data
  {
    var pieces := Pieces(c, data);
    var chunks := ManifestOf(c, HexAddress(blake), data).chunks;
    PiecesTile(c, data);
    SumIsConcat(HexAddress(blake), pieces, |pieces|);
    assert chunks[..|chunks|] == chunks && pieces[..|pieces|] == pieces;
    InPlaceIsPrefix(blake, pieces, out, |pieces|);
  }

  /** With an honest source and a sink that takes everything, no failure has a reason. */
  lemma NothingToBlame(c: Cutter, blake: Blake, data: seq<byte>, source: Source, sink: Sink, e: HydrationError)
    requires |data| <= MAX_MANIFEST_CHUNKS * (MIN_CHUNK_BYTES + 1)
    requires PreimageFree(blake, Pieces(c, data)) && Honest(blake, Pieces(c, data), source) && forall n :: sink(n)
    ensures !Justified(blake, ManifestOf(c, HexAddress(blake), data), source, sink, e)
  {
    hide Pieces, Placed, ParseHash, Sum, Concat, ChunkInPlace, Declares;
    var m := ManifestOf(c, HexAddress(blake), data);
    var pieces := Pieces(c, data);
    ChunkedDeclares(c, blake, data);
    AddressRoundTrip(m.fileHash, blake(data));
    PlacedLength(HexAddress(blake), pieces, 0);
    if Justified(blake, m, source, sink, e) {
      match e
      case NotAHash(i) => PlacedPieces(blake, pieces, i);
      case OffsetDiffers(i) => PlacedPieces(blake, pieces, i);
      case MissingChunk(i) => PlacedPieces(blake, pieces, i);
      case WrongBytes(i) => PlacedPieces(blake, pieces, i);
      case LengthDiffers(i) => PlacedPieces(blake, pieces, i);
      case WrongFile =>
        var out :| && |out| == Sum(m.chunks)
                   && (forall i | 0 <= i < |m.chunks| :: ChunkInPlace(blake, m.chunks, i, out))
                   && ParseHash(m.fileHash) != Some(blake(out));
        AssembledIsData(c, blake, data, out);
      case _ =>
    }
  }

  /**
   * The round trip: chunk a file, then hydrate its manifest from a source that has the chunks, with any
   * valid cache; the original bytes come back.
   */
  lemma RoundTrip(c: Cutter, blake: Blake, data: seq<byte>, source: Source, sink: Sink,
                  r: Result<(), HydrationError>, out: seq<byte>)
    requires |data| <= MAX_MANIFEST_CHUNKS * (MIN_CHUNK_BYTES + 1)
    requires PreimageFree(blake, Pieces(c, data)) && Honest(blake, Pieces(c, data), source) && forall n :: sink(n)
    requires Outcome(blake, ManifestOf(c, HexAddress(blake), data), source, sink, r, out)
    ensures r.Ok? && out == data
  {
    if r.Err? {
      NothingToBlame(c, blake, data, source, sink, r.error);
    } else {
      AssembledIsData(c, blake, data, out);
    }
  }

  /** A bad source cannot make a success of anything but the file: whatever hydrates from its manifest is the file. */
  lemma OnlyTheFile(c: Cutter, blake: Blake, data: seq<byte>, out: seq<byte>)
    requires PreimageFree(blake, Pieces(c, data))
    ensures Assembled(blake, ManifestOf(c, HexAddress(blake), data), out)
       <==> out == data && |Pieces(c, data)| <= MAX_MANIFEST_CHUNKS
  {
    var m := ManifestOf(c, HexAddress(blake), data);
    ChunkedDeclares(c, blake, data);
    hide Pieces, Placed, PreimageFree, ParseHash, ChunkInPlace;
    if Assembled(blake, m, out) {
      AssembledIsData(c, blake, data, out);
    }
    if out == data && |Pieces(c, data)| <= MAX_MANIFEST_CHUNKS {
      DataAssembled(c, blake, data);
    }
  }

  lemma DataAssembled(c: Cutter, blake: Blake, data: seq<byte>)
    requires Declares(ManifestOf(c, HexAddress(blake), data))
    ensures Assembled(blake, ManifestOf(c, HexAddress(blake), data), data)
  {
    hide Pieces, Placed, ParseHash, ChunkInPlace;
    var m := ManifestOf(c, HexAddress(blake), data);
    AddressRoundTrip(m.fileHash, blake(data));
    PlacedLength(HexAddress(blake), Pieces(c, data), 0);
    forall i | 0 <= i < |m.chunks|
      ensures ChunkInPlace(blake, m.chunks, i, data)
    {
      DataInPlace(c, blake, data, i);
    }
  }

  lemma DataInPlace(c: Cutter, blake: Blake, data: seq<byte>, i: nat)
    requires i < |Pieces(c, data)|
    ensures |Placed(HexAddress(blake), Pieces(c, data), 0)| == |Pieces(c, data)|
    ensures ChunkInPlace(blake, Placed(HexAddress(blake), Pieces(c, data), 0), i, data)
  {
    hide Pieces, Placed, ParseHash;
    var pieces := Pieces(c, data);
    PlacedPieces(blake, pieces, i);
    PiecesTile(c, data);
    PieceInConcat(pieces, i);
  }

  lemma PieceInConcat(pieces: seq<seq<byte>>, i: nat)
    requires i < |pieces|
    ensures var from := |Concat(pieces[..i])|;
            from + |pieces[i]| <= |Concat(pieces)| && Concat(pieces)[from..from + |pieces[i]|] == pieces[i]
  {
    var before, after := Concat(pieces[..i]), Concat(pieces[i + 1..]);
    assert pieces == pieces[..i] + ([pieces[i]] + pieces[i + 1..]);
    ConcatBoth(pieces[..i], [pieces[i]] + pieces[i + 1..]);
    assert ([pieces[i]] + pieces[i + 1..])[1..] == pieces[i + 1..];
    assert Concat(pieces) == before + (pieces[i] + after);
  }

  /** The chunks of a file with their addresses, as a hydration uses them. */
  function Stocked(blake: Blake, pieces: seq<seq<byte>>): seq<Stored> {
    if pieces == [] then [] else [Stored(blake(pieces[0]), pieces[0])] + Stocked(blake, pieces[1..])
  }

  lemma {:induction false} StockedAt(blake: Blake, pieces: seq<seq<byte>>, i: nat)
    requires i < |pieces|
    ensures |Stocked(blake, pieces)| == |pieces|
    ensures Stocked(blake, pieces)[i] == Stored(blake(pieces[i]), pieces[i])
  {
    if i > 0 {
      StockedAt(blake, pieces[1..], i - 1);
    } else {
      StockedLength(blake, pieces);
    }
  }

  lemma {:induction false} StockedLength(blake: Blake, pieces: seq<seq<byte>>)
    ensures |Stocked(blake, pieces)| == |pieces|
  {
    if pieces != [] {
      StockedLength(blake, pieces[1..]);
    }
  }

  /**
   * A hydrated file whose distinct chunks fit together in the cache is held whole, so that hydrating it again
   * fetches nothing.
   */
  lemma KeptForNextTime(c: Cutter, blake: Blake, data: seq<byte>, list: seq<Stored>, maxBytes: nat)
    requires PreimageFree(blake, Pieces(c, data))
    requires HeldIfItFits(ManifestOf(c, HexAddress(blake), data).chunks, data, list, maxBytes)
    requires Size(RecentOf(Stocked(blake, Pieces(c, data)))) <= maxBytes
    ensures AllHeld(ManifestOf(c, HexAddress(blake), data).chunks, list)
  {
    var pieces, chunks := Pieces(c, data), ManifestOf(c, HexAddress(blake), data).chunks;
    var trace := Stocked(blake, pieces);
    hide Pieces, Placed, ParseHash, FitsThroughout, RecentOf, AllHeld, Stocked, Concat, Sum;
    PlacedLength(HexAddress(blake), pieces, 0);
    StockedLength(blake, pieces);
    forall i | 0 <= i < |chunks|
      ensures trace[i] == Stored(blake(pieces[i]), pieces[i]) && IsUse(chunks, i, data, trace[i])
    {
      StockedAt(blake, pieces, i);
      PieceUsed(c, blake, data, i);
    }
    forall a, b | a in trace && b in trace && a.hash == b.hash
      ensures a == b
    {
      var i :| 0 <= i < |trace| && trace[i] == a;
      var j :| 0 <= j < |trace| && trace[j] == b;
      assert blake(pieces[i]) == blake(pieces[j]);
    }
    DistinctChunksFit(trace, maxBytes);
  }

  /** Hydrating a file twice: after a success, the second time asks the source for nothing, if the file fits. */
  method HydrateTwice(c: Cutter, data: seq<byte>, cache: Cache, first: Source, second: Source, sink: Sink)
    returns (r: Result<(), HydrationError>, again: Result<(), HydrationError>, fetches: nat)
    requires cache.Valid() && PreimageFree(cache.blake, Pieces(c, data))
    requires Size(RecentOf(Stocked(cache.blake, Pieces(c, data)))) <= cache.maxBytes
    modifies cache
    ensures cache.Valid() && (r.Ok? ==> fetches == 0)
  {
    var m := ManifestOf(c, HexAddress(cache.blake), data);
    var out, once;
    r, out, once := HydrateInto(m, cache, first, sink);
    if r.Ok? {
      OnlyTheFile(c, cache.blake, data, out);
      KeptForNextTime(c, cache.blake, data, cache.list, cache.maxBytes);
    }
    hide *;
    again, out, fetches := HydrateInto(m, cache, second, sink);
  }

  lemma PieceUsed(c: Cutter, blake: Blake, data: seq<byte>, i: nat)
    requires i < |Pieces(c, data)|
    ensures |Placed(HexAddress(blake), Pieces(c, data), 0)| == |Pieces(c, data)|
    ensures IsUse(Placed(HexAddress(blake), Pieces(c, data), 0), i, data,
                  Stored(blake(Pieces(c, data)[i]), Pieces(c, data)[i]))
  {
    hide Pieces, Placed, ParseHash;
    PlacedPieces(blake, Pieces(c, data), i);
    PiecesTile(c, data);
    PieceInConcat(Pieces(c, data), i);
  }
}
