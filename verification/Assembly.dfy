/**
 * Reassembling a file from chunks at hand: into one buffer of the declared size, checked as a whole at the
 * end. The counterpart of chunking on the side that already has the bytes.
 */
module Assembly {
  import opened Wrappers
  import opened Bytes
  import opened Chunker

  type Lookup = string -> Option<seq<byte>>

  datatype AssemblyError = MissingChunk(i: nat) | LengthDiffers(i: nat) | OutOfRange(i: nat) | TotalDiffers | WrongFile

  /** The chunk's bytes are at hand, as many as it declares. */
  predicate Supplied(lookup: Lookup, chunk: Chunk) {
    lookup(chunk.hash).Some? && |lookup(chunk.hash).value| == chunk.length
  }

  /** The bytes of the chunks, one after the other. */
  function Parts(lookup: Lookup, chunks: seq<Chunk>): seq<byte>
    requires forall c | c in chunks :: Supplied(lookup, c)
  {
    if chunks == [] then []
    else
      var last := chunks[|chunks| - 1];
      assert last in chunks && Supplied(lookup, last);
      Parts(lookup, chunks[..|chunks| - 1]) + lookup(last.hash).value
  }

  ghost predicate AllSupplied(lookup: Lookup, chunks: seq<Chunk>) {
    forall c | c in chunks :: Supplied(lookup, c)
  }

  /**
   * `assembleFromChunks`: succeeds exactly when every chunk is at hand, their bytes come to the declared
   * total and the whole has the file's address; and then returns that whole.
   */
  method AssembleFromChunks(m: ChunkManifest, lookup: Lookup, address: Addresser)
    returns (r: Result<seq<byte>, AssemblyError>)
    ensures r.Ok? <==>
              && AllSupplied(lookup, m.chunks)
              && |Parts(lookup, m.chunks)| == m.totalBytes
              && address(Parts(lookup, m.chunks)) == m.fileHash
    ensures r.Ok? ==> r.value == Parts(lookup, m.chunks)
  {
    var out := new byte[m.totalBytes](_ => 0);
    var offset: nat := 0;
    for i := 0 to |m.chunks|
      invariant AllSupplied(lookup, m.chunks[..i])
      invariant offset <= out.Length && out[..offset] == Parts(lookup, m.chunks[..i])
    {
      var chunk := m.chunks[i];
      var bytes := lookup(chunk.hash);
      NextSupplied(lookup, m.chunks, i);
      if bytes.None? {
        return Err(MissingChunk(i));
      }
      if |bytes.value| != chunk.length {
        return Err(LengthDiffers(i));
      }
      if offset + |bytes.value| > out.Length {
        PartsGrow(lookup, m.chunks, i + 1);
        return Err(OutOfRange(i));
      }
      Fill(out, offset, bytes.value);
      offset := offset + |bytes.value|;
    }
    assert m.chunks[..|m.chunks|] == m.chunks;
    if offset != m.totalBytes {
      return Err(TotalDiffers);
    }
    assert out[..] == out[..offset];
    if address(out[..]) != m.fileHash {
      return Err(WrongFile);
    }
    r := Ok(out[..]);
  }

  /** `out.set(bytes, offset)`. */
  method Fill(out: array<byte>, offset: nat, bytes: seq<byte>)
    requires offset + |bytes| <= out.Length
    modifies out
    ensures out[..offset + |bytes|] == old(out[..offset]) + bytes
  {
    forall k | 0 <= k < |bytes| {
      out[offset + k] := bytes[k];
    }
  }

  lemma NextSupplied(lookup: Lookup, chunks: seq<Chunk>, i: nat)
    requires i < |chunks| && AllSupplied(lookup, chunks[..i])
    ensures AllSupplied(lookup, chunks[..i + 1]) <==> Supplied(lookup, chunks[i])
    ensures AllSupplied(lookup, chunks) ==> Supplied(lookup, chunks[i])
    ensures Supplied(lookup, chunks[i]) ==>
              Parts(lookup, chunks[..i + 1]) == Parts(lookup, chunks[..i]) + lookup(chunks[i].hash).value
  {
    assert chunks[..i + 1] == chunks[..i] + [chunks[i]];
    assert chunks[..i + 1][..i] == chunks[..i];
  }

  lemma {:induction false} PartsGrow(lookup: Lookup, chunks: seq<Chunk>, i: nat)
    requires i <= |chunks|
    ensures AllSupplied(lookup, chunks) ==>
              AllSupplied(lookup, chunks[..i]) && |Parts(lookup, chunks[..i])| <= |Parts(lookup, chunks)|
  {
    if i < |chunks| {
      PartsGrow(lookup, chunks[..|chunks| - 1], i);
      assert chunks[..|chunks| - 1][..i] == chunks[..i];
    } else {
      assert chunks[..i] == chunks;
    }
  }

  lemma {:induction false} PiecesAssemble(lookup: Lookup, address: Addresser, pieces: seq<seq<byte>>, k: nat)
    requires k <= |pieces| == |Placed(address, pieces, 0)|
    requires forall p | p in pieces :: lookup(address(p)) == Some(p)
    ensures var chunks := Placed(address, pieces, 0)[..k];
            AllSupplied(lookup, chunks) && Parts(lookup, chunks) == Concat(pieces[..k])
  {
    var chunks := Placed(address, pieces, 0);
    if k == 0 {
      assert chunks[..0] == [] && pieces[..0] == [];
    } else {
      hide Placed, Concat, Parts, AllSupplied;
      PiecesAssemble(lookup, address, pieces, k - 1);
      PlacedAt(address, pieces, 0, k - 1);
      assert pieces[k - 1] in pieces;
      NextSupplied(lookup, chunks, k - 1);
      assert pieces[..k] == pieces[..k - 1] + [pieces[k - 1]];
      ConcatSnoc(pieces[..k - 1], pieces[k - 1]);
    }
  }

  /**
   * The round trip: whatever store has the chunks of a file under their addresses, assembling the file's
   * manifest from it meets every condition of success, and the whole is the file.
   */
  lemma ChunkedFileAssembles(c: Cutter, address: Addresser, data: seq<byte>, lookup: Lookup)
    requires forall p | p in Pieces(c, data) :: lookup(address(p)) == Some(p)
    ensures var m := ManifestOf(c, address, data);
            && AllSupplied(lookup, m.chunks)
            && Parts(lookup, m.chunks) == data
            && |Parts(lookup, m.chunks)| == m.totalBytes && address(Parts(lookup, m.chunks)) == m.fileHash
  {
    var pieces := Pieces(c, data);
    var chunks := Placed(address, pieces, 0);
    PlacedLength(address, pieces, 0);
    PiecesAssemble(lookup, address, pieces, |pieces|);
    PiecesTile(c, data);
    hide Pieces, Placed, Concat, Parts;
    assert chunks[..|pieces|] == chunks && pieces[..|pieces|] == pieces;
  }
}
