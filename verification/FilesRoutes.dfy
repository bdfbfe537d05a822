/**
 * The Files routes, each served whole: one account's tables and the object bucket beside them. A bucket
 * has no rollback, so what a route does to it happens outside the transaction: HEADs before, removals
 * after.
 */
module FilesRoutes {
  import opened Wrappers
  import opened Manifests
  import opened FilesLedger

  /** Every chunk called stored has an object of its row's size. */
  ghost predicate Backed(t: Tables, objects: map<Hash, nat>) {
    forall h | h in t.chunks && t.chunks[h].storedAt.Some? :: h in objects && objects[h] == t.chunks[h].sizeBytes
  }

  /** A file every chunk of which can be downloaded at the length its manifest declares. */
  ghost predicate Readable(t: Tables, objects: map<Hash, nat>, f: FileId) {
    && f in t.files && t.files[f].completedAt.Some?
    && forall r | r in RefsOf(t.fileChunks, f) :: r.hash in objects && objects[r.hash] == r.length
  }

  /** Whatever else could be read back still can. */
  ghost predicate OthersReadable(t: Tables, objects: map<Hash, nat>, t': Tables, objects': map<Hash, nat>, f: FileId) {
    forall g | g != f && Readable(t, objects, g) :: Readable(t', objects', g)
  }

  /** There is an object of the length the row declares. */
  predicate Uploaded(rows: map<Hash, ChunkRow>, objects: map<Hash, nat>, h: Hash)
    requires h in rows
  {
    h in objects && objects[h] == rows[h].sizeBytes
  }

  /** The rows the account has for the named addresses. */
  function OwnedChunks(chunks: map<Hash, ChunkRow>, hashes: set<Hash>): map<Hash, ChunkRow> {
    map h | h in hashes && h in chunks :: chunks[h]
  }

  /** The chunk rows a file's manifest names. */
  function RowsOf(t: Tables, id: FileId): map<Hash, ChunkRow> {
    OwnedChunks(t.chunks, Hashes(RefsOf(t.fileChunks, id)))
  }

  /** What HEADs over these rows confirm, and what they find absent or of another length. */
  ghost function HeadConfirmed(rows: map<Hash, ChunkRow>, objects: map<Hash, nat>): set<Hash> {
    set h | h in rows && rows[h].storedAt.None? && Uploaded(rows, objects, h)
  }

  ghost function HeadMissing(rows: map<Hash, ChunkRow>, objects: map<Hash, nat>): set<Hash> {
    set h | h in rows && rows[h].storedAt.None? && !Uploaded(rows, objects, h)
  }

  /** Every chunk a file names is stored, or has its object waiting. */
  ghost predicate AllUploaded(t: Tables, objects: map<Hash, nat>, id: FileId) {
    forall h | h in Hashes(RefsOf(t.fileChunks, id)) ::
      h in t.chunks && (t.chunks[h].storedAt.Some? || Uploaded(t.chunks, objects, h))
  }

  /** The chunks a file names that are neither stored nor there at their length. */
  ghost function ToUpload(t: Tables, objects: map<Hash, nat>, id: FileId): set<Hash> {
    set h | h in Hashes(RefsOf(t.fileChunks, id)) && h in t.chunks && t.chunks[h].storedAt.None?
            && !Uploaded(t.chunks, objects, h)
  }

  /** The marks after a complete-upload: those there were, and the named chunks whose objects were found. */
  ghost predicate MarksWhatIsThere(t: Tables, objects: map<Hash, nat>, id: FileId, t': Tables) {
    && t'.chunks.Keys == t.chunks.Keys
    && forall h | h in t.chunks ::
         h in StoredHashes(t'.chunks) <==>
         h in StoredHashes(t.chunks) || (h in Hashes(RefsOf(t.fileChunks, id)) && Uploaded(t.chunks, objects, h))
  }

  class FilesService {
    var chunks: map<Hash, ChunkRow>
    var files: map<FileId, FileRow>
    var fileChunks: map<FileId, seq<ChunkRef>>
    /** Object sizes by chunk key. */
    var objects: map<Hash, nat>

    ghost function Db(): Tables
      reads this
    {
      Tables(chunks, files, fileChunks)
    }

    ghost predicate Valid()
      reads this
    {
      Sound(Db()) && Backed(Db(), objects)
    }

    constructor ()
      ensures Valid() && Db() == EMPTY_TABLES && objects == map[]
    {
      chunks, files, fileChunks, objects := map[], map[], map[], map[];
      new;
      SoundAtFirst();
    }

    // Statements shared by the routes.

    method QuotaState() returns (used: nat)
      ensures used == UsedBytes(Db())
    {
      used := 0;
      var todo := chunks.Keys;
      ghost var live := LiveSizes(chunks);
      assert Restrict(live, todo) == live;
      while todo != {}
        invariant todo <= chunks.Keys
        invariant used + Total(Restrict(live, todo)) == Total(live)
      {
        var h :| h in todo;
        assert Restrict(live, todo - {h}) == Restrict(live, todo) - {h};
        if chunks[h].refCount > 0 {
          TotalRemove(Restrict(live, todo), h);
          used := used + chunks[h].sizeBytes;
        } else {
          assert Restrict(live, todo) - {h} == Restrict(live, todo);
        }
        todo := todo - {h};
      }
      assert Restrict(live, {}) == map[];
    }

    method DetachFileChunks(id: FileId) returns (hashes: set<Hash>)
      modifies this`fileChunks
      ensures hashes == Hashes(RefsOf(old(fileChunks), id))
      ensures fileChunks == old(fileChunks) - {id}
    {
      hashes := Hashes(RefsOf(fileChunks, id));
      fileChunks := fileChunks - {id};
    }

    /** One upsert per distinct chunk, then the manifest rows in order. */
    method AttachChunks(id: FileId, manifest: Manifest)
      requires id !in fileChunks
      modifies this`chunks, this`fileChunks
      ensures chunks == Attached(old(chunks), manifest.chunks)
      ensures fileChunks == old(fileChunks)[id := manifest.chunks]
    {
      var wanted := DistinctChunks(manifest);
      DistinctHashes(manifest.chunks);
      ghost var before := chunks;
      ghost var done: seq<ChunkRef> := [];
      AttachNothing(before);
      hide Attached, Hashes, Distinct, NoRepeats;
      for i := 0 to |wanted|
        invariant done == wanted[..i]
        invariant chunks == Attached(before, done)
        invariant fileChunks == old(fileChunks)
      {
        var chunk := wanted[i];
        NotYetMentioned(wanted, i);
        AttachOne(before, done, chunk);
        chunks := chunks[chunk.hash :=
          if chunk.hash in chunks then chunks[chunk.hash].(refCount := chunks[chunk.hash].refCount + 1)
          else ChunkRow(chunk.length, 1, None)];
        done := done + [chunk];
      }
      assert done == wanted;
      AttachDistinct(before, manifest.chunks);
      fileChunks := fileChunks[id := manifest.chunks];
    }

    method ReleaseHashes(hashes: set<Hash>) returns (orphans: set<Hash>)
      modifies this`chunks
      ensures chunks == Released(old(chunks), hashes)
      ensures orphans == Orphans(old(chunks), hashes)
    {
      if hashes == {} {
        assert Released(chunks, hashes) == chunks;
        return {};
      }
      chunks := map h | h in chunks ::
        if h !in hashes then chunks[h]
        else if chunks[h].refCount - 1 >= 0 then chunks[h].(refCount := chunks[h].refCount - 1)
        else chunks[h].(refCount := 0);
      orphans := set h | h in chunks && h in hashes && chunks[h].refCount == 0;
      chunks := chunks - orphans;
    }

    /** Drops the objects of orphans, except those a later manifest has claimed again. */
    method DeleteOrphanObjects(hashes: set<Hash>)
      modifies this`objects
      ensures objects == old(objects) - (hashes - chunks.Keys)
    {
      var reclaimed := hashes * chunks.Keys;
      var todo := hashes;
      while todo != {}
        invariant todo <= hashes
        invariant objects == old(objects) - (hashes - todo - chunks.Keys)
      {
        var h :| h in todo;
        todo := todo - {h};
        if h !in reclaimed {
          objects := objects - {h};
        }
      }
    }

    /** The transaction of `POST /files/manifest`. */
    method CreateTransaction(path: Path, manifest: Manifest, newId: FileId) returns (outcome: CreateOutcome)
      requires Linked(Db()) && newId !in files
      modifies this`chunks, this`files, this`fileChunks
      ensures (Db(), outcome) == Create(old(Db()), path, manifest, newId)
    {
      assert Hashes([]) == {};
      hide Attached, Released, Orphans, Distinct, Lacking, SumLengths, Total, Hashes, LiveSizes, Linked, FileAt;
      var wanted := DistinctChunks(manifest);
      var incoming := SumLengths(Lacking(wanted, chunks.Keys));
      var used := QuotaState();
      if used + incoming > PRO_QUOTA_BYTES {
        return QuotaExceeded(used, incoming);
      }
      var id, created := newId, true;
      if f :| f in files && files[f].path == path {
        id, created := f, false;
        FoundAt(Db(), path, f);
      } else {
        NotFoundAt(files, path);
      }
      files := files[id := FileRow(path, manifest.totalBytes, manifest.fileHash, None)];
      // Acquire before release: a chunk both versions name never reaches zero.
      var releasing: set<Hash> := {};
      if !created {
        releasing := DetachFileChunks(id);
      }
      ghost var detached := fileChunks;
      AttachChunks(id, manifest);
      assert detached[id := manifest.chunks] == old(fileChunks)[id := manifest.chunks];
      var orphans := ReleaseHashes(releasing);
      var stored := set h | h in chunks && chunks[h].storedAt.Some?;
      outcome := Recorded(id, created, orphans, Lacking(wanted, stored));
    }

    /** `POST /files/manifest`: the transaction, then the objects of the chunks it orphaned. */
    method PostManifest(path: Path, manifest: Manifest, newId: FileId) returns (outcome: CreateOutcome)
      requires Valid() && newId !in files
      modifies this
      ensures Valid()
      ensures (Db(), outcome) == Create(old(Db()), path, manifest, newId)
      ensures objects == old(objects) - (if outcome.Recorded? then outcome.orphans else {})
      ensures outcome.Recorded? ==> OthersReadable(old(Db()), old(objects), Db(), objects, outcome.file)
    {
      hide Create, OthersReadable, Sound, Backed, Linked;
      SoundIsLinked(Db());
      CreateWhole(Db(), objects, path, manifest, newId);
      outcome := CreateTransaction(path, manifest, newId);
      if outcome.Recorded? {
        DeleteOrphanObjects(outcome.orphans);
      }
    }

    /** The transaction of `DELETE /files/:id`. */
    method DeleteTransaction(id: FileId) returns (orphans: Option<set<Hash>>)
      modifies this`chunks, this`files, this`fileChunks
      ensures (Db(), orphans) == Delete(old(Db()), id)
    {
      hide Released, Orphans, Hashes;
      if id !in files {
        return None;
      }
      var releasing := DetachFileChunks(id);
      var released := ReleaseHashes(releasing);
      files := files - {id};
      orphans := Some(released);
    }

    /** `DELETE /files/:id`: the transaction, then the objects of the chunks it orphaned. */
    method DeleteFile(id: FileId) returns (found: bool)
      requires Valid()
      modifies this
      ensures Valid()
      ensures found <==> id in old(files)
      ensures Db() == Delete(old(Db()), id).0
      ensures objects == old(objects) - (if found then Delete(old(Db()), id).1.value else {})
      ensures OthersReadable(old(Db()), old(objects), Db(), objects, id)
    {
      hide OthersReadable, Sound, Backed, Delete;
      DeleteWhole(Db(), objects, id);
      NoFileNoChange(Db(), objects, id);
      var orphans := DeleteTransaction(id);
      found := orphans.Some?;
      if found {
        DeleteOrphanObjects(orphans.value);
      }
    }

    /** The HEADs of complete-upload, over the rows as they were read before its transaction. */
    method HeadChunks(rows: map<Hash, ChunkRow>) returns (confirmed: set<Hash>, missing: set<Hash>)
      modifies this`objects
      ensures confirmed == HeadConfirmed(rows, old(objects))
      ensures missing == HeadMissing(rows, old(objects))
      ensures objects == old(objects) - missing
    {
      confirmed, missing := {}, {};
      var todo := rows.Keys;
      while todo != {}
        invariant todo <= rows.Keys
        invariant confirmed
               == set h | h in rows.Keys - todo && rows[h].storedAt.None? && Uploaded(rows, old(objects), h)
        invariant missing == set h | h in rows.Keys - todo && rows[h].storedAt.None? && !Uploaded(rows, old(objects), h)
        invariant objects == old(objects) - missing
      {
        var h :| h in todo;
        todo := todo - {h};
        if rows[h].storedAt.Some? {
          continue;
        }
        if h !in objects {
          missing := missing + {h};
        } else if objects[h] != rows[h].sizeBytes {
          // Bytes of another length can never hash to this address: the object goes.
          objects := objects - {h};
          missing := missing + {h};
        } else {
          confirmed := confirmed + {h};
        }
      }
    }

    /** The transaction of `POST /files/complete`. */
    method CompleteTransaction(id: FileId, confirmed: set<Hash>, missing: set<Hash>, now: Time)
      returns (outcome: CompleteOutcome)
      modifies this`chunks, this`files
      ensures (Db(), outcome) == Complete(old(Db()), id, confirmed, missing, now)
    {
      chunks := Marked(chunks, confirmed, now);
      if missing != {} {
        return Missing(missing);
      }
      if id !in files {
        return Gone;
      }
      var unstored := set h | h in Hashes(RefsOf(fileChunks, id)) && h in chunks && chunks[h].storedAt.None?;
      if unstored != {} {
        return Missing(unstored);
      }
      files := files[id := files[id].(completedAt := Some(now))];
      outcome := Completed;
    }

    /** `POST /files/complete`. */
    method CompleteUpload(id: FileId, now: Time) returns (outcome: CompleteOutcome)
      requires Valid()
      modifies this
      ensures Valid()
      ensures outcome.Gone? <==> id !in old(files)
      ensures outcome.Gone? ==> Db() == old(Db()) && objects == old(objects)
      ensures outcome.Completed? <==> id in old(files) && AllUploaded(old(Db()), old(objects), id)
      ensures outcome.Completed? ==> id in files && files[id].completedAt == Some(now)
      ensures outcome.Missing? ==> outcome.hashes == ToUpload(old(Db()), old(objects), id)
      ensures !outcome.Gone? ==> objects == old(objects) - ToUpload(old(Db()), old(objects), id)
      ensures !outcome.Gone? ==> MarksWhatIsThere(old(Db()), old(objects), id, Db())
    {
      if id !in files {
        return Gone;
      }
      CompleteWhole(Db(), objects, id, now);
      hide Complete, MarksWhatIsThere, ToUpload, HeadConfirmed, HeadMissing, Sound, Backed, AllUploaded, Hashes, RefsOf;
      var rows := RowsOf(Tables(chunks, files, fileChunks), id);
      var confirmed, missing := HeadChunks(rows);
      outcome := CompleteTransaction(id, confirmed, missing, now);
    }

    /**
     * A client's upload. Its URL was signed for the length in the row, so an upload that comes in late, to a
     * chunk already stored, still carries that length.
     */
    method PutObject(h: Hash, sizeBytes: nat)
      requires Valid()
      requires h in chunks && chunks[h].storedAt.Some? ==> sizeBytes == chunks[h].sizeBytes
      modifies this`objects
      ensures Valid() && objects == old(objects)[h := sizeBytes]
    {
      objects := objects[h := sizeBytes];
    }
  }

  lemma AttachNothing(chunks: map<Hash, ChunkRow>)
    ensures Attached(chunks, []) == chunks
  {
  }

  lemma AttachedAt(chunks: map<Hash, ChunkRow>, refs: seq<ChunkRef>, h: Hash)
    ensures h in Attached(chunks, refs) <==> h in chunks || h in Hashes(refs)
    ensures h in Attached(chunks, refs) ==>
              Attached(chunks, refs)[h] == if h !in chunks then ChunkRow(DeclaredLength(refs, h), 1, None)
                                           else if h in Hashes(refs) then
                                             chunks[h].(refCount := chunks[h].refCount + 1)
                                           else chunks[h]
  {
    hide Hashes, DeclaredLength;
  }

  /** What one more chunk names, and how long it says the chunks are. */
  lemma NamedSnoc(done: seq<ChunkRef>, r: ChunkRef, h: Hash)
    requires r.hash !in Hashes(done)
    ensures h in Hashes(done + [r]) <==> h in Hashes(done) || h == r.hash
    ensures h in Hashes(done) ==> DeclaredLength(done + [r], h) == DeclaredLength(done, h)
    ensures h == r.hash ==> DeclaredLength(done + [r], h) == r.length
  {
    Snoc(done, r, {});
    assert (done + [r])[..|done|] == done && (done + [r])[|done|] == r;
  }

  /** One row before and after one more upsert. */
  lemma AttachRow(chunks: map<Hash, ChunkRow>, done: seq<ChunkRef>, r: ChunkRef, h: Hash)
    requires r.hash !in Hashes(done)
    ensures var (before, after) := (Attached(chunks, done), Attached(chunks, done + [r]));
            && (h in after <==> h in before || h == r.hash)
            && (h in after && h != r.hash ==> after[h] == before[h])
            && (h in after && h == r.hash && h in before ==>
                  after[h] == before[h].(refCount := before[h].refCount + 1))
            && (h in after && h == r.hash && h !in before ==> after[h] == ChunkRow(r.length, 1, None))
  {
    hide *;
    NamedSnoc(done, r, h);
    AttachedAt(chunks, done, h);
    AttachedAt(chunks, done + [r], h);
  }

  lemma AttachOne(chunks: map<Hash, ChunkRow>, done: seq<ChunkRef>, r: ChunkRef)
    requires r.hash !in Hashes(done)
    ensures var before := Attached(chunks, done);
            Attached(chunks, done + [r]) == before[r.hash :=
              if r.hash in before then before[r.hash].(refCount := before[r.hash].refCount + 1)
              else ChunkRow(r.length, 1, None)]
  {
    hide Attached, Hashes;
    var before, after := Attached(chunks, done), Attached(chunks, done + [r]);
    var row := if r.hash in before then before[r.hash].(refCount := before[r.hash].refCount + 1)
               else ChunkRow(r.length, 1, None);
    forall h
      ensures h in after <==> h in before[r.hash := row]
      ensures h in after ==> after[h] == before[r.hash := row][h]
    {
      AttachRow(chunks, done, r, h);
    }
    assert after == before[r.hash := row];
  }

  /** A list without repeats mentions no address a second time. */
  lemma NotYetMentioned(refs: seq<ChunkRef>, i: nat)
    requires NoRepeats(refs) && i < |refs|
    ensures refs[i].hash !in Hashes(refs[..i])
  {
    HashesAreNamed(refs[..i]);
    hide Hashes;
  }

  lemma AttachDistinct(chunks: map<Hash, ChunkRow>, refs: seq<ChunkRef>)
    ensures Attached(chunks, Distinct(refs)) == Attached(chunks, refs)
  {
    DistinctHashes(refs);
    forall h | h in Hashes(refs)
      ensures DeclaredLength(Distinct(refs), h) == DeclaredLength(refs, h)
    {
      DistinctKeepsLength(refs, h);
    }
  }

  /** Rows that stay keep their size and mark, and only objects of rows that go are removed. */
  lemma BackedAfter(t: Tables, t': Tables, refs: seq<ChunkRef>, orphans: set<Hash>, objects: map<Hash, nat>)
    requires AllMoved(t, t', refs, orphans) && Backed(t, objects) && orphans !! t'.chunks.Keys
    ensures Backed(t', objects - orphans)
  {
    forall h | h in t'.chunks && t'.chunks[h].storedAt.Some?
      ensures h in objects - orphans && (objects - orphans)[h] == t'.chunks[h].sizeBytes
    {
      assert RowStep(t, t', refs, orphans, h);
    }
  }

  lemma NamedHaveRows(t: Tables, id: FileId)
    requires ExactCounts(t)
    ensures Hashes(RefsOf(t.fileChunks, id)) <= t.chunks.Keys
  {
    forall h | h in Hashes(RefsOf(t.fileChunks, id))
      ensures h in t.chunks
    {
      assert id in Namers(t.fileChunks, h);
    }
  }

  /** Removing the objects of chunks nobody names leaves every other file readable. */
  lemma OthersStayReadable(t: Tables, t': Tables, orphans: set<Hash>, objects: map<Hash, nat>, g: FileId)
    requires Readable(t, objects, g)
    requires g in t'.files && t'.files[g] == t.files[g] && RefsOf(t'.fileChunks, g) == RefsOf(t.fileChunks, g)
    requires forall h | h in orphans :: Namers(t'.fileChunks, h) == {}
    ensures Readable(t', objects - orphans, g)
  {
    forall r | r in RefsOf(t.fileChunks, g)
      ensures r.hash !in orphans
    {
      HashesAreNamed(RefsOf(t.fileChunks, g));
      assert g in Namers(t'.fileChunks, r.hash);
    }
  }

  lemma FoundAt(t: Tables, path: Path, f: FileId)
    requires Linked(t) && f in t.files && t.files[f].path == path
    ensures FileAt(t.files, path) == Some(f)
  {
  }

  lemma NotFoundAt(files: map<FileId, FileRow>, path: Path)
    requires forall f | f in files :: files[f].path != path
    ensures FileAt(files, path) == None
  {
  }

  lemma ReadableIsThere(t: Tables, objects: map<Hash, nat>, g: FileId)
    requires Readable(t, objects, g)
    ensures g in t.files
  {
  }

  /** A create touches no other file's row or manifest. */
  lemma CreateSparesOthers(t: Tables, path: Path, m: Manifest, newId: FileId, g: FileId)
    requires Create(t, path, m, newId).1.Recorded? && g in t.files && g != Create(t, path, m, newId).1.file
    ensures var t' := Create(t, path, m, newId).0;
            g in t'.files && t'.files[g] == t.files[g] && RefsOf(t'.fileChunks, g) == RefsOf(t.fileChunks, g)
  {
    hide Attached, Released, Orphans, UsedBytes, Incoming;
  }

  lemma CreateWhole(t: Tables, objects: map<Hash, nat>, path: Path, m: Manifest, newId: FileId)
    requires Sound(t) && Backed(t, objects) && newId !in t.files
    ensures var (t', out) := Create(t, path, m, newId);
            && Sound(t')
            && (out.Recorded? ==>
                  && Backed(t', objects - out.orphans)
                  && out.orphans - t'.chunks.Keys == out.orphans
                  && OthersReadable(t, objects, t', objects - out.orphans, out.file))
  {
    hide Create, Sound, Linked, ExactCounts, Backed, AllMoved, Readable, Namers;
    SoundIsLinked(t);
    var (t', out) := Create(t, path, m, newId);
    CreateKeepsSound(t, path, m, newId);
    if out.Recorded? {
      CreateMoves(t, path, m, newId);
      OrphansAfter(t, t', m.chunks, out.orphans);
      BackedAfter(t, t', m.chunks, out.orphans, objects);
      SharedRowsStay(t, t', m.chunks, out.orphans);
      forall g | g != out.file && Readable(t, objects, g)
        ensures Readable(t', objects - out.orphans, g)
      {
        ReadableIsThere(t, objects, g);
        CreateSparesOthers(t, path, m, newId, g);
        OthersStayReadable(t, t', out.orphans, objects, g);
      }
    }
  }

  lemma DeleteWhole(t: Tables, objects: map<Hash, nat>, id: FileId)
    requires Sound(t) && Backed(t, objects)
    ensures var (t', orphans) := Delete(t, id);
            && Sound(t')
            && (id in t.files ==>
                  && Backed(t', objects - orphans.value)
                  && orphans.value - t'.chunks.Keys == orphans.value
                  && OthersReadable(t, objects, t', objects - orphans.value, id))
  {
    hide Sound, Linked, ExactCounts, Backed, AllMoved, Namers, Released, Orphans, Hashes;
    SoundIsLinked(t);
    var (t', orphans) := Delete(t, id);
    DeleteKeepsSound(t, id);
    if id in t.files {
      DeleteMoves(t, id);
      OrphansAfter(t, t', [], orphans.value);
      BackedAfter(t, t', [], orphans.value, objects);
      SharedRowsStay(t, t', [], orphans.value);
      forall g | g != id && Readable(t, objects, g)
        ensures Readable(t', objects - orphans.value, g)
      {
        OthersStayReadable(t, t', orphans.value, objects, g);
      }
    }
  }

  lemma NoFileNoChange(t: Tables, objects: map<Hash, nat>, id: FileId)
    ensures Delete(t, id).1.Some? <==> id in t.files
    ensures id !in t.files ==> Delete(t, id).0 == t && OthersReadable(t, objects, t, objects, id)
  {
  }

  /** Served whole, complete-upload succeeds exactly when every byte the file needs is there. */
  lemma CompleteVerdict(t: Tables, objects: map<Hash, nat>, id: FileId, now: Time)
    requires ExactCounts(t) && id in t.files
    ensures var (confirmed, missing) := (HeadConfirmed(RowsOf(t, id), objects), HeadMissing(RowsOf(t, id), objects));
            var out := Complete(t, id, confirmed, missing, now).1;
            !out.Gone? && (out.Completed? <==> AllUploaded(t, objects, id))
  {
    hide Hashes, ExactCounts, HeadConfirmed, HeadMissing, Marked, RowsOf, Uploaded;
    NamedHaveRows(t, id);
    var confirmed, missing := HeadConfirmed(RowsOf(t, id), objects), HeadMissing(RowsOf(t, id), objects);
    forall h
      ensures h in missing ==> h in Hashes(RefsOf(t.fileChunks, id))
      ensures h in Hashes(RefsOf(t.fileChunks, id)) ==>
                && h in Marked(t.chunks, confirmed, now)
                && (h in missing <==> t.chunks[h].storedAt.None? && !Uploaded(t.chunks, objects, h))
                && (h !in missing ==> Marked(t.chunks, confirmed, now)[h].storedAt.Some?)
    {
      HeadVerdict(t, objects, id, now, h);
    }
    if missing != {} {
      var h :| h in missing;
    }
  }

  lemma HeadVerdict(t: Tables, objects: map<Hash, nat>, id: FileId, now: Time, h: Hash)
    requires Hashes(RefsOf(t.fileChunks, id)) <= t.chunks.Keys
    ensures var (confirmed, missing) := (HeadConfirmed(RowsOf(t, id), objects), HeadMissing(RowsOf(t, id), objects));
            && (h in missing ==> h in Hashes(RefsOf(t.fileChunks, id)))
            && (h in Hashes(RefsOf(t.fileChunks, id)) ==>
                  && h in Marked(t.chunks, confirmed, now)
                  && (h in missing <==> t.chunks[h].storedAt.None? && !Uploaded(t.chunks, objects, h))
                  && (h !in missing ==> Marked(t.chunks, confirmed, now)[h].storedAt.Some?))
  {
    hide Hashes, RefsOf;
  }

  lemma MarkingKeepsBacked(t: Tables, t': Tables, objects: map<Hash, nat>, id: FileId, now: Time)
    requires Backed(t, objects)
    requires t'.chunks == Marked(t.chunks, HeadConfirmed(RowsOf(t, id), objects), now)
    ensures Backed(t', objects - HeadMissing(RowsOf(t, id), objects))
  {
    var rows := RowsOf(t, id);
    forall h | h in t'.chunks && t'.chunks[h].storedAt.Some?
      ensures h in objects && objects[h] == t'.chunks[h].sizeBytes && h !in HeadMissing(rows, objects)
    {
      assert t.chunks[h].storedAt.Some? || h in HeadConfirmed(rows, objects);
    }
  }

  lemma HeadsFindWhatIsLeft(t: Tables, objects: map<Hash, nat>, id: FileId)
    ensures HeadMissing(RowsOf(t, id), objects) == ToUpload(t, objects, id)
  {
    hide Hashes, RefsOf;
  }

  lemma ConfirmedAreMarked(t: Tables, objects: map<Hash, nat>, id: FileId, t': Tables, now: Time)
    requires t'.chunks == Marked(t.chunks, HeadConfirmed(RowsOf(t, id), objects), now)
    ensures MarksWhatIsThere(t, objects, id, t')
  {
    hide Hashes, RefsOf;
  }

  /** A request whose HEADs are fresh answers with what they found. */
  lemma FreshAnswer(t: Tables, objects: map<Hash, nat>, id: FileId, now: Time)
    requires ExactCounts(t) && id in t.files
    ensures var (confirmed, missing) := (HeadConfirmed(RowsOf(t, id), objects), HeadMissing(RowsOf(t, id), objects));
            var out := Complete(t, id, confirmed, missing, now).1;
            out.Missing? ==> out.hashes == missing
  {
    var confirmed, missing := HeadConfirmed(RowsOf(t, id), objects), HeadMissing(RowsOf(t, id), objects);
    CompleteAnswers(t, id, confirmed, missing, now);
    hide Complete, ExactCounts, Hashes, RefsOf;
    if missing == {} {
      forall h | h in Hashes(RefsOf(t.fileChunks, id))
        ensures h in StoredHashes(t.chunks) + confirmed
      {
        NamedHasRow(t, id, h);
        assert h !in missing;
      }
    }
  }

  lemma CompleteMarksChunks(t: Tables, id: FileId, confirmed: set<Hash>, missing: set<Hash>, now: Time)
    ensures Complete(t, id, confirmed, missing, now).0.chunks == Marked(t.chunks, confirmed, now)
  {
  }

  lemma CompleteWhole(t: Tables, objects: map<Hash, nat>, id: FileId, now: Time)
    requires Sound(t) && Backed(t, objects) && id in t.files
    ensures var (confirmed, missing) := (HeadConfirmed(RowsOf(t, id), objects), HeadMissing(RowsOf(t, id), objects));
            var (t', out) := Complete(t, id, confirmed, missing, now);
            && Sound(t') && Backed(t', objects - missing) && !out.Gone?
            && (out.Completed? <==> AllUploaded(t, objects, id))
            && (out.Completed? ==> id in t'.files && t'.files[id].completedAt == Some(now))
            && missing == ToUpload(t, objects, id)
            && (out.Missing? ==> out.hashes == missing)
            && MarksWhatIsThere(t, objects, id, t')
  {
    var confirmed, missing := HeadConfirmed(RowsOf(t, id), objects), HeadMissing(RowsOf(t, id), objects);
    SoundIsLinked(t);
    hide *;
    CompleteMarksChunks(t, id, confirmed, missing, now);
    HeadsFindWhatIsLeft(t, objects, id);
    ConfirmedAreMarked(t, objects, id, Complete(t, id, confirmed, missing, now).0, now);
    FreshAnswer(t, objects, id, now);
    MarkingKeepsBacked(t, Complete(t, id, confirmed, missing, now).0, objects, id, now);
    CompleteKeepsSound(t, id, confirmed, missing, now);
    CompleteMarks(t, id, confirmed, missing, now);
    CompleteVerdict(t, objects, id, now);
  }

  /** The receipt is honest: when an address fixes a length, a complete file can be read back. */
  lemma CompleteIsReadable(t: Tables, objects: map<Hash, nat>, lengthOf: Hash -> nat, f: FileId)
    requires Sound(t) && Backed(t, objects) && SizesAgree(t, lengthOf)
    requires f in t.files && t.files[f].completedAt.Some?
    ensures Readable(t, objects, f)
  {
    forall r | r in RefsOf(t.fileChunks, f)
      ensures r.hash in objects && objects[r.hash] == r.length
    {
      HashesAreNamed(RefsOf(t.fileChunks, f));
      assert r.hash in Hashes(RefsOf(t.fileChunks, f));
      StoredIsBacked(t, objects, lengthOf, f, r);
    }
  }

  lemma StoredIsBacked(t: Tables, objects: map<Hash, nat>, lengthOf: Hash -> nat, f: FileId, r: ChunkRef)
    requires CompleteIsStored(t) && Backed(t, objects) && SizesAgree(t, lengthOf)
    requires f in t.files && t.files[f].completedAt.Some? && r in RefsOf(t.fileChunks, f)
    requires r.hash in Hashes(RefsOf(t.fileChunks, f))
    ensures r.hash in objects && objects[r.hash] == r.length
  {
  }
}
