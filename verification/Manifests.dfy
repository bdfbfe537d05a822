/**
 * File manifests and the two routines that compute an upload set from one: `distinctChunks` followed
 * by a filter (the control plane) and the single pass of `missingChunks` (the chunking package). They
 * are written independently of each other and must name the same chunks in the same order.
 */
module Manifests {

  /** A content address: the BLAKE3 of a chunk. Only its equality matters here. */
  type Hash(==, !new)

  datatype ChunkRef = ChunkRef(hash: Hash, offset: nat, length: nat)

  datatype Manifest = Manifest(fileHash: Hash, totalBytes: nat, chunks: seq<ChunkRef>)

  /** The addresses a chunk list names. */
  function Hashes(refs: seq<ChunkRef>): set<Hash> {
    if refs == [] then {} else Hashes(refs[..|refs| - 1]) + {refs[|refs| - 1].hash}
  }

  lemma {:induction false} HashesAreNamed(refs: seq<ChunkRef>)
    ensures forall h :: h in Hashes(refs) <==> exists r :: r in refs && r.hash == h
  {
    if refs != [] {
      var rest, last := refs[..|refs| - 1], refs[|refs| - 1];
      assert refs == rest + [last];
      HashesAreNamed(rest);
      assert forall r :: r in refs <==> r in rest || r == last;
    }
  }

  /** Position `i` is the first mention of its address. */
  ghost predicate FirstAt(refs: seq<ChunkRef>, i: nat) {
    i < |refs| && refs[i].hash !in Hashes(refs[..i])
  }

  ghost predicate FirstMention(refs: seq<ChunkRef>, r: ChunkRef) {
    exists i: nat :: FirstAt(refs, i) && refs[i] == r
  }

  ghost predicate NoRepeats(refs: seq<ChunkRef>) {
    forall i, j | 0 <= i < j < |refs| :: refs[i].hash != refs[j].hash
  }

  /** Each address once, where it is first mentioned. */
  function Distinct(refs: seq<ChunkRef>): seq<ChunkRef> {
    if refs == [] then []
    else
      var rest, last := refs[..|refs| - 1], refs[|refs| - 1];
      if last.hash in Hashes(rest) then Distinct(rest) else Distinct(rest) + [last]
  }

  /** The chunks of a list that are not held. */
  function Lacking(refs: seq<ChunkRef>, held: set<Hash>): seq<ChunkRef> {
    if refs == [] then []
    else
      var rest, last := Lacking(refs[..|refs| - 1], held), refs[|refs| - 1];
      if last.hash in held then rest else rest + [last]
  }

  /** What the single pass of `missingChunks` lists. */
  function Unlisted(refs: seq<ChunkRef>, held: set<Hash>): seq<ChunkRef> {
    if refs == [] then []
    else
      var rest, last := refs[..|refs| - 1], refs[|refs| - 1];
      if last.hash in Hashes(rest) - held || last.hash in held then Unlisted(rest, held)
      else Unlisted(rest, held) + [last]
  }

  lemma Snoc(refs: seq<ChunkRef>, r: ChunkRef, held: set<Hash>)
    ensures Hashes(refs + [r]) == Hashes(refs) + {r.hash}
    ensures Distinct(refs + [r]) == Distinct(refs) + (if r.hash in Hashes(refs) then [] else [r])
    ensures Lacking(refs + [r], held) == Lacking(refs, held) + (if r.hash in held then [] else [r])
    ensures Unlisted(refs + [r], held)
         == Unlisted(refs, held) + (if r.hash in Hashes(refs) + held then [] else [r])
  {
    assert (refs + [r])[..|refs|] == refs;
  }

  lemma {:induction false} DistinctHashes(refs: seq<ChunkRef>)
    ensures Hashes(Distinct(refs)) == Hashes(refs)
    ensures NoRepeats(Distinct(refs))
  {
    if refs != [] {
      var rest, last := refs[..|refs| - 1], refs[|refs| - 1];
      DistinctHashes(rest);
      if last.hash !in Hashes(rest) {
        Snoc(Distinct(rest), last, {});
        NoRepeatsSnoc(Distinct(rest), last);
      }
    }
  }

  lemma NoRepeatsSnoc(refs: seq<ChunkRef>, last: ChunkRef)
    requires NoRepeats(refs) && last.hash !in Hashes(refs)
    ensures NoRepeats(refs + [last])
  {
    HashesAreNamed(refs);
    forall i | 0 <= i < |refs|
      ensures refs[i].hash != last.hash
    {
      assert refs[i] in refs;
    }
  }

  lemma FirstMentionSnoc(rest: seq<ChunkRef>, last: ChunkRef, r: ChunkRef)
    ensures FirstMention(rest + [last], r) <==> FirstMention(rest, r) || (r == last && last.hash !in Hashes(rest))
  {
    var refs := rest + [last];
    forall i: nat | i <= |rest|
      ensures refs[..i] == rest[..i]
    {
    }
    assert rest[..|rest|] == rest;
    hide Hashes;
    if FirstMention(rest, r) {
      var i: nat :| FirstAt(rest, i) && rest[i] == r;
      assert FirstAt(refs, i);
    } else if r == last && last.hash !in Hashes(rest) {
      assert FirstAt(refs, |rest|);
    }
    if FirstMention(refs, r) {
      var i: nat :| FirstAt(refs, i) && refs[i] == r;
      assert i < |rest| ==> FirstAt(rest, i);
    }
  }

  lemma {:induction false} DistinctMentions(refs: seq<ChunkRef>, r: ChunkRef)
    ensures r in Distinct(refs) <==> FirstMention(refs, r)
  {
    if refs != [] {
      var rest, last := refs[..|refs| - 1], refs[|refs| - 1];
      DistinctMentions(rest, r);
      FirstMentionSnoc(rest, last, r);
      assert refs == rest + [last];
      hide FirstMention, Hashes;
    }
  }

  /** Deduplication keeps every address, each exactly once, and each from its first mention. */
  lemma DistinctIsFirstMentions(refs: seq<ChunkRef>)
    ensures Hashes(Distinct(refs)) == Hashes(refs)
    ensures NoRepeats(Distinct(refs))
    ensures forall r :: r in Distinct(refs) <==> FirstMention(refs, r)
  {
    DistinctHashes(refs);
    hide Distinct, FirstMention;
    forall r
      ensures r in Distinct(refs) <==> FirstMention(refs, r)
    {
      DistinctMentions(refs, r);
    }
  }

  /** `distinctChunks`: a pass with a `seen` set. */
  method DistinctChunks(manifest: Manifest) returns (out: seq<ChunkRef>)
    ensures out == Distinct(manifest.chunks)
  {
    var refs := manifest.chunks;
    var seen: set<Hash> := {};
    ghost var done: seq<ChunkRef> := [];
    out := [];
    for i := 0 to |refs|
      invariant done == refs[..i]
      invariant out == Distinct(done) && seen == Hashes(done)
    {
      var chunk := refs[i];
      Snoc(done, chunk, {});
      done := done + [chunk];
      if chunk.hash !in seen {
        seen := seen + {chunk.hash};
        out := out + [chunk];
      }
    }
    assert done == refs;
  }

  /**
   * `missingChunks`: skip a chunk that is already listed or already held. `seen` only ever takes in what
   * was listed, so a held address is looked up again at every mention.
   */
  method MissingChunks(manifest: Manifest, held: set<Hash>) returns (missing: seq<ChunkRef>)
    ensures missing == Unlisted(manifest.chunks, held)
  {
    var refs := manifest.chunks;
    var seen: set<Hash> := {};
    ghost var done: seq<ChunkRef> := [];
    missing := [];
    for i := 0 to |refs|
      invariant done == refs[..i]
      invariant missing == Unlisted(done, held) && seen == Hashes(done) - held
    {
      var chunk := refs[i];
      Snoc(done, chunk, held);
      done := done + [chunk];
      if chunk.hash !in seen && chunk.hash !in held {
        seen := seen + {chunk.hash};
        missing := missing + [chunk];
      }
    }
    assert done == refs;
  }

  /** The control plane's filtered list and the chunking package's single pass are one list. */
  lemma {:induction false} UploadSetsAgree(refs: seq<ChunkRef>, held: set<Hash>)
    ensures Unlisted(refs, held) == Lacking(Distinct(refs), held)
  {
    if refs != [] {
      var rest, last := refs[..|refs| - 1], refs[|refs| - 1];
      UploadSetsAgree(rest, held);
      Snoc(Distinct(rest), last, held);
    }
  }

  lemma {:induction false} LackingHashes(refs: seq<ChunkRef>, held: set<Hash>)
    ensures Hashes(Lacking(refs, held)) == Hashes(refs) - held
  {
    if refs != [] {
      LackingHashes(refs[..|refs| - 1], held);
      Snoc(Lacking(refs[..|refs| - 1], held), refs[|refs| - 1], held);
    }
  }

  lemma {:induction false} LackingNoRepeats(refs: seq<ChunkRef>, held: set<Hash>)
    requires NoRepeats(refs)
    ensures NoRepeats(Lacking(refs, held))
  {
    if refs != [] {
      var rest, last := refs[..|refs| - 1], refs[|refs| - 1];
      LackingNoRepeats(rest, held);
      var kept := Lacking(rest, held);
      forall r | r in kept
        ensures r.hash != last.hash
      {
        LackingHashes(rest, held);
        HashesAreNamed(kept);
        HashesAreNamed(rest);
        assert r.hash in Hashes(kept);
        var q :| q in rest && q.hash == r.hash;
        var i :| 0 <= i < |rest| && rest[i] == q;
        assert refs[i] == q;
      }
    }
  }

  lemma LackingIsExact(refs: seq<ChunkRef>, held: set<Hash>)
    ensures Hashes(Lacking(refs, held)) == Hashes(refs) - held
    ensures NoRepeats(refs) ==> NoRepeats(Lacking(refs, held))
  {
    LackingHashes(refs, held);
    if NoRepeats(refs) {
      LackingNoRepeats(refs, held);
    }
  }

  /** An upload set names exactly the addresses the file names and the destination lacks, each once. */
  lemma UploadSetIsExact(refs: seq<ChunkRef>, held: set<Hash>)
    ensures Hashes(Lacking(Distinct(refs), held)) == Hashes(refs) - held
    ensures NoRepeats(Lacking(Distinct(refs), held))
  {
    DistinctHashes(refs);
    LackingIsExact(Distinct(refs), held);
  }
}
