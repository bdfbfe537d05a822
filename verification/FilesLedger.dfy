/**
 * One account's Files tables: chunk rows that carry a reference count and a `storedAt` mark, file rows
 * that carry a `completedAt` mark, and the manifest rows in between. Each database transaction of the
 * Files routes is one function here; what it keeps is proved about that function.
 */
module FilesLedger {
  import opened Wrappers
  import opened Manifests

  type FileId(==, !new)
  type Path(==, !new)
  type Time = nat

  datatype ChunkRow = ChunkRow(sizeBytes: nat, refCount: int, storedAt: Option<Time>)

  datatype FileRow = FileRow(path: Path, sizeBytes: nat, fileHash: Hash, completedAt: Option<Time>)

  datatype Tables = Tables(
    chunks: map<Hash, ChunkRow>,
    files: map<FileId, FileRow>,
    fileChunks: map<FileId, seq<ChunkRef>>)

  const PRO_QUOTA_BYTES: nat := 100 * 1024 * 1024 * 1024

  const EMPTY_TABLES := Tables(map[], map[], map[])

  // ------------------------------------------------------------------
  // Reading the tables
  // ------------------------------------------------------------------

  /** The manifest rows of a file, in `idx` order. */
  function RefsOf(fileChunks: map<FileId, seq<ChunkRef>>, id: FileId): seq<ChunkRef> {
    if id in fileChunks then fileChunks[id] else []
  }

  /** The files whose manifest names a chunk: what a reference count claims to count. */
  ghost function Namers(fileChunks: map<FileId, seq<ChunkRef>>, h: Hash): set<FileId> {
    set f | f in fileChunks && h in Hashes(fileChunks[f])
  }

  /** The length a chunk list declares for an address: that of its first mention. */
  function DeclaredLength(refs: seq<ChunkRef>, h: Hash): (n: nat)
    requires h in Hashes(refs)
  {
    if h in Hashes(refs[..|refs| - 1]) then DeclaredLength(refs[..|refs| - 1], h)
    else refs[|refs| - 1].length
  }

  ghost function FileAt(files: map<FileId, FileRow>, path: Path): Option<FileId> {
    if exists f :: f in files && files[f].path == path
    then (var f :| f in files && files[f].path == path; Some(f))
    else None
  }

  function SumLengths(refs: seq<ChunkRef>): nat {
    if refs == [] then 0 else SumLengths(refs[..|refs| - 1]) + refs[|refs| - 1].length
  }

  ghost function Total(sizes: map<Hash, nat>): nat
    decreases |sizes|
  {
    if sizes == map[] then 0
    else
      var h :| h in sizes;
      sizes[h] + Total(sizes - {h})
  }

  /** The sizes `quotaState` sums: those of the chunks some file still references. */
  ghost function LiveSizes(chunks: map<Hash, ChunkRow>): map<Hash, nat> {
    map h | h in chunks && chunks[h].refCount > 0 :: chunks[h].sizeBytes
  }

  ghost function UsedBytes(t: Tables): nat {
    Total(LiveSizes(t.chunks))
  }

  // ------------------------------------------------------------------
  // Statements
  // ------------------------------------------------------------------

  /** `INSERT ... ON CONFLICT DO UPDATE SET refCount = refCount + 1` for every distinct chunk. */
  ghost function Attached(chunks: map<Hash, ChunkRow>, refs: seq<ChunkRef>): map<Hash, ChunkRow> {
    map h | h in chunks.Keys + Hashes(refs) ::
      if h !in chunks then ChunkRow(DeclaredLength(refs, h), 1, None)
      else if h in Hashes(refs) then chunks[h].(refCount := chunks[h].refCount + 1)
      else chunks[h]
  }

  /** `UPDATE ... SET refCount = GREATEST(refCount - 1, 0)`. */
  function Decremented(chunks: map<Hash, ChunkRow>, hashes: set<Hash>): map<Hash, ChunkRow> {
    map h | h in chunks ::
      if h in hashes
      then chunks[h].(refCount := if chunks[h].refCount - 1 > 0 then chunks[h].refCount - 1 else 0)
      else chunks[h]
  }

  /** The rows `DELETE ... WHERE refCount = 0` removes among those just decremented. */
  function Orphans(chunks: map<Hash, ChunkRow>, hashes: set<Hash>): set<Hash> {
    set h | h in chunks && h in hashes && Decremented(chunks, hashes)[h].refCount == 0
  }

  function Released(chunks: map<Hash, ChunkRow>, hashes: set<Hash>): map<Hash, ChunkRow> {
    Decremented(chunks, hashes) - Orphans(chunks, hashes)
  }

  /** `SET storedAt = now WHERE hash IN (...) AND storedAt IS NULL`. */
  function Marked(chunks: map<Hash, ChunkRow>, hashes: set<Hash>, now: Time): map<Hash, ChunkRow> {
    map h | h in chunks ::
      if h in hashes && chunks[h].storedAt.None? then chunks[h].(storedAt := Some(now)) else chunks[h]
  }

  // ------------------------------------------------------------------
  // Transactions
  // ------------------------------------------------------------------

  datatype CreateOutcome =
    | QuotaExceeded(usedBytes: nat, incoming: nat)
    | Recorded(file: FileId, created: bool, orphans: set<Hash>, missing: seq<ChunkRef>)

  datatype CompleteOutcome = Gone | Missing(hashes: set<Hash>) | Completed

  /** The bytes a manifest adds: its distinct chunks with no row yet. */
  ghost function Incoming(t: Tables, m: Manifest): nat {
    SumLengths(Lacking(Distinct(m.chunks), t.chunks.Keys))
  }

  ghost function StoredHashes(chunks: map<Hash, ChunkRow>): set<Hash> {
    set h | h in chunks && chunks[h].storedAt.Some?
  }

  /**
   * Create from a manifest, or replace the file already at `path`. New references are taken before old
   * ones are given up. `newId` is the id a new row would get.
   */
  ghost function Create(t: Tables, path: Path, m: Manifest, newId: FileId): (r: (Tables, CreateOutcome))
    ensures r.1.QuotaExceeded? <==> UsedBytes(t) + Incoming(t, m) > PRO_QUOTA_BYTES
    ensures r.1.QuotaExceeded? ==> r.0 == t && r.1.usedBytes == UsedBytes(t) && r.1.incoming == Incoming(t, m)
  {
    if UsedBytes(t) + Incoming(t, m) > PRO_QUOTA_BYTES
    then (t, QuotaExceeded(UsedBytes(t), Incoming(t, m)))
    else
      var existing := FileAt(t.files, path);
      var id := if existing.Some? then existing.value else newId;
      var releasing := Hashes(if existing.Some? then RefsOf(t.fileChunks, id) else []);
      var attached := Attached(t.chunks, m.chunks);
      var chunks := Released(attached, releasing);
      (Tables(chunks,
              t.files[id := FileRow(path, m.totalBytes, m.fileHash, None)],
              t.fileChunks[id := m.chunks]),
       Recorded(id, existing.None?, Orphans(attached, releasing),
                Lacking(Distinct(m.chunks), StoredHashes(chunks))))
  }

  /** Delete a file: `None` when there is no such file, else the orphaned addresses. */
  ghost function Delete(t: Tables, id: FileId): (Tables, Option<set<Hash>>) {
    if id !in t.files then (t, None)
    else
      var releasing := Hashes(RefsOf(t.fileChunks, id));
      (Tables(Released(t.chunks, releasing), t.files - {id}, t.fileChunks - {id}),
       Some(Orphans(t.chunks, releasing)))
  }

  /**
   * The transaction of complete-upload. `confirmed` and `missing` come from HEADs made before it, and so
   * may describe rows that are gone or that another request has re-created since.
   */
  ghost function Complete(t: Tables, id: FileId, confirmed: set<Hash>, missing: set<Hash>, now: Time)
    : (Tables, CompleteOutcome)
  {
    var marked := t.(chunks := Marked(t.chunks, confirmed, now));
    if missing != {} then (marked, Missing(missing))
    else if id !in t.files then (marked, Gone)
    else if Unstored(marked, id) != {} then (marked, Missing(Unstored(marked, id)))
    else (Finished(marked, id, now), Completed)
  }

  /** What that transaction reads again: the file's chunks whose rows are not stored. */
  ghost function Unstored(t: Tables, id: FileId): set<Hash> {
    set h | h in Hashes(RefsOf(t.fileChunks, id)) && h in t.chunks && t.chunks[h].storedAt.None?
  }

  /** The last statement of that transaction on its own. */
  ghost function Finished(t: Tables, id: FileId, now: Time): Tables
    requires id in t.files
  {
    t.(files := t.files[id := t.files[id].(completedAt := Some(now))])
  }

  // ------------------------------------------------------------------
  // What every transaction keeps
  // ------------------------------------------------------------------

  /** Foreign key of the manifest rows, and the unique index on paths. */
  ghost predicate Linked(t: Tables) {
    && t.fileChunks.Keys <= t.files.Keys
    && forall f, g | f in t.files && g in t.files && t.files[f].path == t.files[g].path :: f == g
  }

  /** A row's count is the number of files naming the chunk, and there is a row exactly when that is not 0. */
  ghost predicate ExactCounts(t: Tables) {
    && (forall h :: h in t.chunks <==> Namers(t.fileChunks, h) != {})
    && (forall h | h in t.chunks :: t.chunks[h].refCount == |Namers(t.fileChunks, h)|)
  }

  /** A file marked complete names only chunks whose row is stored. */
  ghost predicate CompleteIsStored(t: Tables) {
    forall f, h | f in t.files && t.files[f].completedAt.Some? && h in Hashes(RefsOf(t.fileChunks, f)) ::
      h in t.chunks && t.chunks[h].storedAt.Some?
  }

  ghost predicate WithinQuota(t: Tables) {
    UsedBytes(t) <= PRO_QUOTA_BYTES
  }

  /** Rows, counts and quota, whatever the files are marked as. */
  ghost predicate Counted(t: Tables) {
    Linked(t) && ExactCounts(t) && WithinQuota(t)
  }

  ghost predicate Sound(t: Tables) {
    Counted(t) && CompleteIsStored(t)
  }

  lemma SoundIsLinked(t: Tables)
    ensures Sound(t) <==> Counted(t) && CompleteIsStored(t)
    ensures Counted(t) ==> Linked(t) && ExactCounts(t)
  {
  }

  /** Only meaningful when an address fixes a length: every row and every mention carries that length. */
  ghost predicate SizesAgree(t: Tables, lengthOf: Hash -> nat) {
    && (forall h | h in t.chunks :: t.chunks[h].sizeBytes == lengthOf(h))
    && (forall f, r | f in t.fileChunks && r in t.fileChunks[f] :: r.length == lengthOf(r.hash))
  }

  lemma SoundAtFirst()
    ensures Sound(EMPTY_TABLES)
  {
    assert LiveSizes(EMPTY_TABLES.chunks) == map[];
  }

  // ------------------------------------------------------------------
  // Byte totals
  // ------------------------------------------------------------------

  lemma {:induction false} TotalRemove(m: map<Hash, nat>, h: Hash)
    requires h in m
    ensures Total(m) == m[h] + Total(m - {h})
    decreases |m|
  {
    var g :| g in m && Total(m) == m[g] + Total(m - {g});
    if g != h {
      TotalRemove(m - {g}, h);
      TotalRemove(m - {h}, g);
      assert m - {g} - {h} == m - {h} - {g};
    }
  }

  lemma SplitOff(a: map<Hash, nat>, b: map<Hash, nat>, g: Hash)
    requires a.Keys !! b.Keys && g in a
    ensures (a + b) - {g} == (a - {g}) + b && (a + b)[g] == a[g]
  {
  }

  /** The total of two maps with no common key. */
  lemma {:induction false} TotalOfBoth(a: map<Hash, nat>, b: map<Hash, nat>)
    requires a.Keys !! b.Keys
    ensures Total(a + b) == Total(a) + Total(b)
    decreases |a|
  {
    if a == map[] {
      assert a + b == b;
    } else {
      var g :| g in a;
      TotalOfBoth(a - {g}, b);
      SplitOff(a, b, g);
      TotalRemove(a, g);
      TotalRemove(a + b, g);
    }
  }

  ghost function Restrict(m: map<Hash, nat>, keys: set<Hash>): map<Hash, nat> {
    map h | h in m && h in keys :: m[h]
  }

  /** The total once some sizes are added and others leave. */
  lemma TotalAfter(before: map<Hash, nat>, added: map<Hash, nat>, gone: set<Hash>)
    requires before.Keys !! added.Keys && gone <= before.Keys
    ensures Total(before + added - gone) == Total(before) + Total(added) - Total(Restrict(before, gone))
  {
    hide Total;
    TotalOfBoth(Restrict(before, gone), before - gone);
    assert Restrict(before, gone) + (before - gone) == before;
    TotalOfBoth(before - gone, added);
    assert before + added - gone == (before - gone) + added;
  }

  ghost function DeclaredSizes(refs: seq<ChunkRef>): map<Hash, nat> {
    map h | h in Hashes(refs) :: DeclaredLength(refs, h)
  }

  lemma {:induction false} TotalOfList(refs: seq<ChunkRef>)
    requires NoRepeats(refs)
    ensures Total(DeclaredSizes(refs)) == SumLengths(refs)
  {
    var sizes := DeclaredSizes(refs);
    if refs == [] {
      assert sizes == map[];
    } else {
      var rest, last := refs[..|refs| - 1], refs[|refs| - 1];
      TotalOfList(rest);
      HashesAreNamed(rest);
      assert last.hash !in Hashes(rest);
      TotalRemove(sizes, last.hash);
      assert sizes - {last.hash} == DeclaredSizes(rest);
    }
  }

  lemma {:induction false} DistinctKeepsLength(refs: seq<ChunkRef>, h: Hash)
    requires h in Hashes(refs)
    ensures h in Hashes(Distinct(refs)) && DeclaredLength(Distinct(refs), h) == DeclaredLength(refs, h)
  {
    var rest, last := refs[..|refs| - 1], refs[|refs| - 1];
    DistinctHashes(refs);
    DistinctHashes(rest);
    if h in Hashes(rest) {
      DistinctKeepsLength(rest, h);
    }
    assert last.hash !in Hashes(rest) ==> Distinct(refs)[..|Distinct(refs)| - 1] == Distinct(rest);
  }

  lemma {:induction false} LackingKeepsLength(refs: seq<ChunkRef>, held: set<Hash>, h: Hash)
    requires h in Hashes(refs) && h !in held
    ensures h in Hashes(Lacking(refs, held)) && DeclaredLength(Lacking(refs, held), h) == DeclaredLength(refs, h)
  {
    var rest, last := refs[..|refs| - 1], refs[|refs| - 1];
    LackingIsExact(refs, held);
    LackingIsExact(rest, held);
    if h in Hashes(rest) {
      LackingKeepsLength(rest, held, h);
    }
    assert last.hash !in held ==> Lacking(refs, held)[..|Lacking(refs, held)| - 1] == Lacking(rest, held);
  }

  /** `incoming` is the total declared size of the addresses that have no row. */
  lemma IncomingIsNewRows(t: Tables, m: Manifest)
    ensures Incoming(t, m) == Total(DeclaredSizes(m.chunks) - t.chunks.Keys)
  {
    hide Distinct, Lacking, SumLengths, Total, Hashes, DeclaredLength;
    var wanted := Distinct(m.chunks);
    var adding := Lacking(wanted, t.chunks.Keys);
    UploadSetIsExact(m.chunks, t.chunks.Keys);
    DistinctHashes(m.chunks);
    TotalOfList(adding);
    forall h | h in Hashes(adding)
      ensures DeclaredLength(adding, h) == DeclaredLength(m.chunks, h)
    {
      DistinctKeepsLength(m.chunks, h);
      LackingKeepsLength(wanted, t.chunks.Keys, h);
    }
    assert DeclaredSizes(adding) == DeclaredSizes(m.chunks) - t.chunks.Keys;
  }

  /** The bytes the account holds in a set of its chunks. */
  ghost function BytesOf(t: Tables, hashes: set<Hash>): nat {
    Total(Restrict(LiveSizes(t.chunks), hashes))
  }

  // ------------------------------------------------------------------
  // Reference counts, one address at a time
  // ------------------------------------------------------------------

  lemma SubsetSize<T>(a: set<T>, b: set<T>)
    requires a <= b
    ensures |a| <= |b|
  {
    assert b == a + (b - a);
  }

  lemma SwapSize<T>(a: set<T>, b: set<T>, x: T, keeps: bool)
    requires b == a - {x} + if keeps then {x} else {}
    ensures |b| == |a| - (if x in a then 1 else 0) + (if keeps then 1 else 0)
  {
    assert b - {x} == a - {x};
  }

  type ManifestRows = map<FileId, seq<ChunkRef>>

  /** The naming files after one file's manifest is set. */
  lemma NamersAfterSet(rows: ManifestRows, f: FileId, refs: seq<ChunkRef>, h: Hash)
    ensures Namers(rows[f := refs], h) == Namers(rows, h) - {f} + if h in Hashes(refs) then {f} else {}
    ensures f in Namers(rows, h) <==> h in Hashes(RefsOf(rows, f))
  {
  }

  lemma NamersAfterDrop(rows: ManifestRows, f: FileId, h: Hash)
    ensures Namers(rows - {f}, h) == Namers(rows, h) - {f} + {}
    ensures f in Namers(rows, h) <==> h in Hashes(RefsOf(rows, f))
  {
  }

  /** How a transaction that takes `refs` and gives up `orphans` moves one address. */
  ghost predicate RowStep(t: Tables, t': Tables, refs: seq<ChunkRef>, orphans: set<Hash>, h: Hash) {
    && (h in t'.chunks <==> Namers(t'.fileChunks, h) != {})
    && (h in t'.chunks ==> t'.chunks[h].refCount == |Namers(t'.fileChunks, h)|)
    && (h in orphans <==> Namers(t.fileChunks, h) != {} && Namers(t'.fileChunks, h) == {})
    && (h in t.chunks && h in t'.chunks ==>
          t'.chunks[h] == t.chunks[h].(refCount := |Namers(t'.fileChunks, h)|))
    && (h in Hashes(refs) ==> h in t'.chunks)
    && (h in t'.chunks && h !in t.chunks ==>
          h in Hashes(refs) && t'.chunks[h] == ChunkRow(DeclaredLength(refs, h), 1, None))
  }

  ghost predicate AllMoved(t: Tables, t': Tables, refs: seq<ChunkRef>, orphans: set<Hash>) {
    forall h :: RowStep(t, t', refs, orphans, h)
  }

  /** One row through an attach and a release. */
  lemma RowAfter(chunks: map<Hash, ChunkRow>, refs: seq<ChunkRef>, releasing: set<Hash>, h: Hash)
    ensures var (attached, named) := (Attached(chunks, refs), h in Hashes(refs));
            var after := Released(attached, releasing);
            var count := (if h in chunks then chunks[h].refCount else 0) + (if named then 1 else 0)
                         - (if h in releasing then 1 else 0);
            && (h in after <==> (h in chunks || named) && !(h in releasing && count <= 0))
            && (h in Orphans(attached, releasing) <==> (h in chunks || named) && h in releasing && count <= 0)
            && (h in after && h in chunks ==> after[h] == chunks[h].(refCount := count))
            && (h in after && h !in chunks ==> after[h] == ChunkRow(DeclaredLength(refs, h), count, None))
  {
    hide Hashes, DeclaredLength;
  }

  /** A replace gives up what the file named before; a new file named nothing. */
  lemma CreateShape(t: Tables, path: Path, m: Manifest, newId: FileId)
    requires Linked(t) && newId !in t.files && Create(t, path, m, newId).1.Recorded?
    ensures var (t', out) := Create(t, path, m, newId);
            var releasing := Hashes(RefsOf(t.fileChunks, out.file));
            && t'.fileChunks == t.fileChunks[out.file := m.chunks]
            && t'.chunks == Released(Attached(t.chunks, m.chunks), releasing)
            && out.orphans == Orphans(Attached(t.chunks, m.chunks), releasing)
  {
    hide UsedBytes, Incoming, Released, Orphans, Attached;
  }

  lemma CreateRow(t: Tables, path: Path, m: Manifest, newId: FileId, h: Hash)
    requires Linked(t) && ExactCounts(t) && newId !in t.files && Create(t, path, m, newId).1.Recorded?
    ensures var out := Create(t, path, m, newId);
            RowStep(t, out.0, m.chunks, out.1.orphans, h)
  {
    var (t', out) := Create(t, path, m, newId);
    CreateShape(t, path, m, newId);
    SetRow(t, t', out.file, m.chunks, out.orphans, h);
  }

  lemma SetRow(t: Tables, t': Tables, f: FileId, refs: seq<ChunkRef>, orphans: set<Hash>, h: Hash)
    requires ExactCounts(t)
    requires t'.fileChunks == t.fileChunks[f := refs]
    requires t'.chunks == Released(Attached(t.chunks, refs), Hashes(RefsOf(t.fileChunks, f)))
    requires orphans == Orphans(Attached(t.chunks, refs), Hashes(RefsOf(t.fileChunks, f)))
    ensures RowStep(t, t', refs, orphans, h)
  {
    hide Attached, Released, Orphans, Hashes;
    RowAfter(t.chunks, refs, Hashes(RefsOf(t.fileChunks, f)), h);
    NamersAfterSet(t.fileChunks, f, refs, h);
    SwapSize(Namers(t.fileChunks, h), Namers(t'.fileChunks, h), f, h in Hashes(refs));
    hide Namers;
  }

  lemma DeleteRow(t: Tables, id: FileId, h: Hash)
    requires Linked(t) && ExactCounts(t) && id in t.files
    ensures var out := Delete(t, id);
            RowStep(t, out.0, [], out.1.value, h)
  {
    NamersAfterDrop(t.fileChunks, id, h);
    SwapSize(Namers(t.fileChunks, h), Namers(t.fileChunks - {id}, h), id, false);
  }

  /**
   * The clamp in the decrement never bites: whatever is released, by a replace after it has attached or by
   * a delete, still has a claim to give up.
   */
  lemma ClampNeverBites(t: Tables, id: FileId, refs: seq<ChunkRef>, h: Hash)
    requires ExactCounts(t) && h in Hashes(RefsOf(t.fileChunks, id))
    ensures h in t.chunks && t.chunks[h].refCount >= 1
    ensures h in Attached(t.chunks, refs) && Attached(t.chunks, refs)[h].refCount >= 1
  {
    assert id in Namers(t.fileChunks, h);
    SubsetSize({id}, Namers(t.fileChunks, h));
  }

  // What follows from every address having moved that way.

  lemma CountsAfter(t: Tables, t': Tables, refs: seq<ChunkRef>, orphans: set<Hash>)
    requires AllMoved(t, t', refs, orphans)
    ensures ExactCounts(t')
  {
    forall h
      ensures h in t'.chunks <==> Namers(t'.fileChunks, h) != {}
      ensures h in t'.chunks ==> t'.chunks[h].refCount == |Namers(t'.fileChunks, h)|
    {
      assert RowStep(t, t', refs, orphans, h);
    }
  }

  /** The orphans are exactly the rows that go: the addresses no file names any more. */
  lemma OrphansAfter(t: Tables, t': Tables, refs: seq<ChunkRef>, orphans: set<Hash>)
    requires ExactCounts(t) && AllMoved(t, t', refs, orphans)
    ensures orphans == t.chunks.Keys - t'.chunks.Keys
  {
    forall h
      ensures h in orphans <==> h in t.chunks && h !in t'.chunks
    {
      assert RowStep(t, t', refs, orphans, h);
    }
  }

  lemma CountsMeanLive(t: Tables)
    requires ExactCounts(t)
    ensures LiveSizes(t.chunks) == map h | h in t.chunks :: t.chunks[h].sizeBytes
  {
    forall h | h in t.chunks
      ensures t.chunks[h].refCount > 0
    {
      var f :| f in Namers(t.fileChunks, h);
      SubsetSize({f}, Namers(t.fileChunks, h));
    }
  }

  lemma BytesAfter(t: Tables, t': Tables, refs: seq<ChunkRef>, orphans: set<Hash>)
    requires ExactCounts(t) && AllMoved(t, t', refs, orphans)
    ensures UsedBytes(t') == UsedBytes(t) + Total(DeclaredSizes(refs) - t.chunks.Keys) - BytesOf(t, orphans)
  {
    hide ExactCounts, Namers, Hashes, Total;
    CountsAfter(t, t', refs, orphans);
    OrphansAfter(t, t', refs, orphans);
    CountsMeanLive(t);
    CountsMeanLive(t');
    var before, added, after := LiveSizes(t.chunks), DeclaredSizes(refs) - t.chunks.Keys, LiveSizes(t'.chunks);
    forall h
      ensures h in after <==> h in before + added - orphans
      ensures h in after ==> after[h] == (before + added - orphans)[h]
    {
      assert RowStep(t, t', refs, orphans, h);
    }
    assert after == before + added - orphans;
    TotalAfter(before, added, orphans);
  }

  lemma SharedRowsStay(t: Tables, t': Tables, refs: seq<ChunkRef>, orphans: set<Hash>)
    requires AllMoved(t, t', refs, orphans)
    ensures forall h :: h in orphans <==> Namers(t.fileChunks, h) != {} && Namers(t'.fileChunks, h) == {}
    ensures forall h | h in t.chunks && h in Hashes(refs) ::
              h in t'.chunks && t'.chunks[h].storedAt == t.chunks[h].storedAt
  {
    forall h
      ensures h in orphans <==> Namers(t.fileChunks, h) != {} && Namers(t'.fileChunks, h) == {}
      ensures h in t.chunks && h in Hashes(refs) ==>
                h in t'.chunks && t'.chunks[h].storedAt == t.chunks[h].storedAt
    {
      assert RowStep(t, t', refs, orphans, h);
    }
  }

  lemma CompleteStoredAfter(t: Tables, t': Tables, refs: seq<ChunkRef>, orphans: set<Hash>)
    requires CompleteIsStored(t) && AllMoved(t, t', refs, orphans)
    requires forall f | f in t'.files && t'.files[f].completedAt.Some? ::
               f in t.files && t.files[f] == t'.files[f]
               && RefsOf(t.fileChunks, f) == RefsOf(t'.fileChunks, f)
    ensures CompleteIsStored(t')
  {
    forall f, h | f in t'.files && t'.files[f].completedAt.Some? && h in Hashes(RefsOf(t'.fileChunks, f))
      ensures h in t'.chunks && t'.chunks[h].storedAt.Some?
    {
      assert h in t.chunks && t.chunks[h].storedAt.Some?;
      assert f in Namers(t'.fileChunks, h);
      assert RowStep(t, t', refs, orphans, h);
    }
  }

  // ------------------------------------------------------------------
  // The transactions
  // ------------------------------------------------------------------

  lemma CreateMoves(t: Tables, path: Path, m: Manifest, newId: FileId)
    requires Linked(t) && ExactCounts(t) && newId !in t.files && Create(t, path, m, newId).1.Recorded?
    ensures var out := Create(t, path, m, newId);
            AllMoved(t, out.0, m.chunks, out.1.orphans)
  {
    var (t', out) := Create(t, path, m, newId);
    forall h
      ensures RowStep(t, t', m.chunks, out.orphans, h)
    {
      CreateRow(t, path, m, newId, h);
    }
  }

  lemma DeleteMoves(t: Tables, id: FileId)
    requires Linked(t) && ExactCounts(t) && id in t.files
    ensures var out := Delete(t, id);
            AllMoved(t, out.0, [], out.1.value)
  {
    var (t', orphans) := Delete(t, id);
    forall h
      ensures RowStep(t, t', [], orphans.value, h)
    {
      DeleteRow(t, id, h);
    }
  }

  lemma NewFileOrphansNothing(t: Tables, path: Path, m: Manifest, newId: FileId)
    requires Create(t, path, m, newId).1.Recorded?
    ensures Create(t, path, m, newId).1.created ==> Create(t, path, m, newId).1.orphans == {}
  {
  }

  /** Recording a manifest charges exactly its new distinct chunks and gives back exactly the orphans' bytes. */
  lemma CreateConservesBytes(t: Tables, path: Path, m: Manifest, newId: FileId)
    requires Linked(t) && ExactCounts(t) && newId !in t.files && Create(t, path, m, newId).1.Recorded?
    ensures var (t', out) := Create(t, path, m, newId);
            UsedBytes(t') == UsedBytes(t) + Incoming(t, m) - BytesOf(t, out.orphans)
  {
    var (t', out) := Create(t, path, m, newId);
    CreateMoves(t, path, m, newId);
    BytesAfter(t, t', m.chunks, out.orphans);
    IncomingIsNewRows(t, m);
  }

  /** Deleting a file gives back exactly the bytes of its orphans. */
  lemma DeleteConservesBytes(t: Tables, id: FileId)
    requires Linked(t) && ExactCounts(t) && id in t.files
    ensures var (t', orphans) := Delete(t, id);
            UsedBytes(t') == UsedBytes(t) - BytesOf(t, orphans.value)
  {
    var (t', orphans) := Delete(t, id);
    DeleteMoves(t, id);
    BytesAfter(t, t', [], orphans.value);
    assert DeclaredSizes([]) - t.chunks.Keys == map[];
  }

  /**
   * The orphans of a create are exactly the chunks no file names any more; a chunk the outgoing and the
   * incoming version share keeps its row and its mark; a new file orphans nothing; and the answer lists
   * exactly the chunks whose rows are not stored once the transaction is over.
   */
  lemma CreateSparesShared(t: Tables, path: Path, m: Manifest, newId: FileId)
    requires Linked(t) && ExactCounts(t) && newId !in t.files && Create(t, path, m, newId).1.Recorded?
    ensures var (t', out) := Create(t, path, m, newId);
            && RefsOf(t'.fileChunks, out.file) == m.chunks
            && (forall h :: h in out.orphans <==>
                  Namers(t.fileChunks, h) != {} && Namers(t'.fileChunks, h) == {})
            && (forall h | h in t.chunks && h in Hashes(m.chunks) ::
                  h in t'.chunks && t'.chunks[h].storedAt == t.chunks[h].storedAt)
            && (out.created ==> out.orphans == {})
            && Hashes(out.missing) == Hashes(m.chunks) - StoredHashes(t'.chunks)
  {
    var (t', out) := Create(t, path, m, newId);
    CreateMoves(t, path, m, newId);
    SharedRowsStay(t, t', m.chunks, out.orphans);
    OrphansAfter(t, t', m.chunks, out.orphans);
    NewFileOrphansNothing(t, path, m, newId);
    UploadSetIsExact(m.chunks, StoredHashes(t'.chunks));
  }

  lemma DeleteSparesRow(t: Tables, id: FileId, h: Hash)
    requires Linked(t) && ExactCounts(t) && id in t.files
    ensures var (t', orphans) := Delete(t, id);
            && orphans.Some?
            && (h in orphans.value <==> Namers(t.fileChunks, h) == {id})
            && (h in t'.chunks ==> h in t.chunks && t'.chunks[h].storedAt == t.chunks[h].storedAt)
  {
    hide Namers, Released, Orphans, Hashes, Linked, ExactCounts, Delete;
    DeleteRow(t, id, h);
    DeleteLists(t, id);
    NamersAfterDrop(t.fileChunks, id, h);
    NothingNamed(h);
  }

  lemma DeleteLists(t: Tables, id: FileId)
    requires id in t.files
    ensures Delete(t, id).0.fileChunks == t.fileChunks - {id} && Delete(t, id).1.Some?
  {
  }

  lemma NothingNamed(h: Hash)
    ensures h !in Hashes([])
  {
  }

  /** A delete orphans exactly the chunks no other file names, and leaves every other row's mark alone. */
  lemma DeleteSparesShared(t: Tables, id: FileId)
    requires Linked(t) && ExactCounts(t) && id in t.files
    ensures var (t', orphans) := Delete(t, id);
            && (forall h :: h in orphans.value <==> Namers(t.fileChunks, h) == {id})
            && (forall h | h in t'.chunks :: h in t.chunks && t'.chunks[h].storedAt == t.chunks[h].storedAt)
  {
    var (t', orphans) := Delete(t, id);
    assert orphans.Some?;
    hide Delete;
    forall h
      ensures h in orphans.value <==> Namers(t.fileChunks, h) == {id}
      ensures h in t'.chunks ==> h in t.chunks && t'.chunks[h].storedAt == t.chunks[h].storedAt
    {
      DeleteSparesRow(t, id, h);
    }
  }

  /**
   * What a create writes: one file, with the manifest's address, size and chunks, not yet complete, under the id of
   * the file at that path or, exactly when there is none, under the new one. Every other file is as it was.
   */
  lemma CreateWritesItsFile(t: Tables, path: Path, m: Manifest, newId: FileId)
    requires Linked(t) && newId !in t.files && Create(t, path, m, newId).1.Recorded?
    ensures var (t', out) := Create(t, path, m, newId);
            && out.file in t'.files
            && t'.files[out.file].path == path && t'.files[out.file].completedAt.None?
            && t'.files[out.file].fileHash == m.fileHash && t'.files[out.file].sizeBytes == m.totalBytes
            && out.file in t'.fileChunks && t'.fileChunks[out.file] == m.chunks
            && (out.created <==> forall f | f in t.files :: t.files[f].path != path)
            && (if out.created then out.file == newId else out.file in t.files && t.files[out.file].path == path)
            && (forall f | f != out.file ::
                  && (f in t'.files <==> f in t.files) && (f in t.files ==> t'.files[f] == t.files[f])
                  && (f in t'.fileChunks <==> f in t.fileChunks)
                  && (f in t.fileChunks ==> t'.fileChunks[f] == t.fileChunks[f]))
  {
    hide Attached, Released, Orphans, Hashes, Lacking, Distinct, UsedBytes, Incoming;
  }

  /** A delete takes the one file and leaves every other as it was. */
  lemma DeleteTakesItsFile(t: Tables, id: FileId)
    requires id in t.files
    ensures var t' := Delete(t, id).0;
            && id !in t'.files && id !in t'.fileChunks
            && (forall f | f != id ::
                  && (f in t'.files <==> f in t.files) && (f in t.files ==> t'.files[f] == t.files[f])
                  && (f in t'.fileChunks <==> f in t.fileChunks)
                  && (f in t.fileChunks ==> t'.fileChunks[f] == t.fileChunks[f]))
  {
    hide Released, Orphans, Hashes;
  }

  lemma CreateKeepsCounted(t: Tables, path: Path, m: Manifest, newId: FileId)
    requires Counted(t) && newId !in t.files
    ensures Counted(Create(t, path, m, newId).0)
  {
    hide Released, Orphans, Attached, Incoming, Total, Hashes;
    var (t', out) := Create(t, path, m, newId);
    if out.Recorded? {
      CreateMoves(t, path, m, newId);
      CountsAfter(t, t', m.chunks, out.orphans);
      CreateConservesBytes(t, path, m, newId);
    }
  }

  lemma CreateKeepsSound(t: Tables, path: Path, m: Manifest, newId: FileId)
    requires Sound(t) && newId !in t.files
    ensures Sound(Create(t, path, m, newId).0)
  {
    hide Released, Orphans, Attached, Incoming, Total, Hashes;
    CreateKeepsCounted(t, path, m, newId);
    var (t', out) := Create(t, path, m, newId);
    if out.Recorded? {
      CreateMoves(t, path, m, newId);
      CompleteStoredAfter(t, t', m.chunks, out.orphans);
    }
  }

  lemma DeleteKeepsCounted(t: Tables, id: FileId)
    requires Counted(t)
    ensures Counted(Delete(t, id).0)
  {
    var (t', orphans) := Delete(t, id);
    if id in t.files {
      DeleteMoves(t, id);
      CountsAfter(t, t', [], orphans.value);
      DeleteConservesBytes(t, id);
    }
  }

  lemma DeleteKeepsSound(t: Tables, id: FileId)
    requires Sound(t)
    ensures Sound(Delete(t, id).0)
  {
    DeleteKeepsCounted(t, id);
    var (t', orphans) := Delete(t, id);
    if id in t.files {
      DeleteMoves(t, id);
      CompleteStoredAfter(t, t', [], orphans.value);
    }
  }

  // Completing an upload changes marks, never counts.

  /** Two tables whose chunk rows differ in their marks alone. */
  ghost predicate SameButMarks(t: Tables, t': Tables) {
    && t'.fileChunks == t.fileChunks
    && t'.chunks.Keys == t.chunks.Keys
    && forall h | h in t.chunks ::
         && t'.chunks[h].refCount == t.chunks[h].refCount
         && t'.chunks[h].sizeBytes == t.chunks[h].sizeBytes
         && (t.chunks[h].storedAt.Some? ==> t'.chunks[h].storedAt == t.chunks[h].storedAt)
  }

  lemma MarksKeepCounts(t: Tables, t': Tables)
    requires SameButMarks(t, t')
    ensures ExactCounts(t) ==> ExactCounts(t')
    ensures LiveSizes(t'.chunks) == LiveSizes(t.chunks)
  {
  }

  /**
   * Marks are only ever added and an earlier mark keeps its time. A file becomes complete only when every
   * chunk it names at that moment is stored.
   */
  lemma CompleteMarks(t: Tables, id: FileId, confirmed: set<Hash>, missing: set<Hash>, now: Time)
    ensures var (t', out) := Complete(t, id, confirmed, missing, now);
            && SameButMarks(t, t')
            && t'.files.Keys == t.files.Keys
            && (forall f | f in t.files :: t'.files[f].path == t.files[f].path)
            && (forall f | f in t.files && t'.files[f] != t.files[f] :: f == id && out.Completed?)
            && (out.Completed? ==>
                  && id in t'.files && t'.files[id].completedAt == Some(now) && missing == {}
                  && forall h | h in Hashes(RefsOf(t.fileChunks, id)) && h in t'.chunks ::
                       t'.chunks[h].storedAt.Some?)
  {
    var (t', out) := Complete(t, id, confirmed, missing, now);
    if out.Completed? {
      assert Unstored(t.(chunks := t'.chunks), id) == {};
      assert forall h | h in Hashes(RefsOf(t.fileChunks, id)) && h in t'.chunks ::
          h !in Unstored(t.(chunks := t'.chunks), id);
    }
  }

  lemma NamedHasRow(t: Tables, f: FileId, h: Hash)
    requires ExactCounts(t) && h in Hashes(RefsOf(t.fileChunks, f))
    ensures h in t.chunks
  {
    assert f in Namers(t.fileChunks, h) by {
      assert Hashes([]) == {};
    }
  }

  lemma StoredStays(t: Tables, t': Tables, f: FileId, h: Hash)
    requires CompleteIsStored(t) && SameButMarks(t, t')
    requires f in t.files && t.files[f].completedAt.Some? && h in Hashes(RefsOf(t.fileChunks, f))
    ensures h in t'.chunks && t'.chunks[h].storedAt.Some?
  {
    hide Hashes;
    assert h in t.chunks && t.chunks[h].storedAt.Some?;
  }

  lemma MarksKeepCompleteStored(t: Tables, t': Tables, id: FileId)
    requires ExactCounts(t) && CompleteIsStored(t) && SameButMarks(t, t')
    requires forall f | f in t'.files && f != id :: f in t.files && t'.files[f] == t.files[f]
    requires id in t'.files && t'.files[id].completedAt.Some? ==>
               || (id in t.files && t'.files[id] == t.files[id])
               || forall h | h in Hashes(RefsOf(t.fileChunks, id)) && h in t'.chunks :: t'.chunks[h].storedAt.Some?
    ensures CompleteIsStored(t')
  {
    assert t'.fileChunks == t.fileChunks && t'.chunks.Keys == t.chunks.Keys;
    hide ExactCounts, SameButMarks, Hashes, RefsOf;
    forall f, h | f in t'.files && t'.files[f].completedAt.Some? && h in Hashes(RefsOf(t'.fileChunks, f))
      ensures h in t'.chunks && t'.chunks[h].storedAt.Some?
    {
      NamedHasRow(t, f, h);
      if f in t.files && t'.files[f] == t.files[f] {
        StoredStays(t, t', f, h);
      }
    }
  }

  /** Whatever the HEADs reported, and however stale the report, the tables stay sound. */
  lemma CompleteKeepsSound(t: Tables, id: FileId, confirmed: set<Hash>, missing: set<Hash>, now: Time)
    requires Sound(t)
    ensures Sound(Complete(t, id, confirmed, missing, now).0)
  {
    var t' := Complete(t, id, confirmed, missing, now).0;
    CompleteMarks(t, id, confirmed, missing, now);
    MarksKeepCounts(t, t');
    MarksKeepCompleteStored(t, t', id);
  }

  // That transaction takes no account lock, so others may commit between its statements.

  /** Every chunk the file names is stored. */
  ghost predicate NamesStored(t: Tables, id: FileId) {
    Hashes(RefsOf(t.fileChunks, id)) <= StoredHashes(t.chunks)
  }

  /** What the check of that transaction finds out. */
  lemma CheckIsExact(t: Tables, id: FileId)
    requires ExactCounts(t)
    ensures Unstored(t, id) == {} <==> NamesStored(t, id)
  {
    hide Hashes, RefsOf, ExactCounts;
    forall h | h in Hashes(RefsOf(t.fileChunks, id))
      ensures h in Unstored(t, id) <==> h !in StoredHashes(t.chunks)
    {
      NamedHasRow(t, id, h);
    }
  }

  /**
   * What the transaction answers, in terms of the tables before it: the HEADs' missing addresses if there are any;
   * otherwise the named chunks that are neither stored nor confirmed; complete exactly when there are none.
   */
  lemma CompleteAnswers(t: Tables, id: FileId, confirmed: set<Hash>, missing: set<Hash>, now: Time)
    requires ExactCounts(t)
    ensures var out := Complete(t, id, confirmed, missing, now).1;
            var left := set h | h in Hashes(RefsOf(t.fileChunks, id)) && h !in StoredHashes(t.chunks) + confirmed;
            && (out.Gone? <==> missing == {} && id !in t.files)
            && (out.Completed? <==> missing == {} && id in t.files && left == {})
            && (out.Missing? ==> out.hashes == if missing != {} then missing else left)
  {
    hide Hashes, RefsOf, ExactCounts;
    var left := set h | h in Hashes(RefsOf(t.fileChunks, id)) && h !in StoredHashes(t.chunks) + confirmed;
    forall h | h in Hashes(RefsOf(t.fileChunks, id))
      ensures h in t.chunks
    {
      NamedHasRow(t, id, h);
    }
    assert Unstored(t.(chunks := Marked(t.chunks, confirmed, now)), id) == left;
  }

  /** Marking a file complete is right exactly when all its chunks are stored at that moment, not before. */
  lemma FinishKeepsExactly(t: Tables, id: FileId, now: Time)
    requires CompleteIsStored(t) && id in t.files
    ensures CompleteIsStored(Finished(t, id, now)) <==> NamesStored(t, id)
  {
    hide Hashes, RefsOf;
    var t' := Finished(t, id, now);
    if CompleteIsStored(t') {
      forall h | h in Hashes(RefsOf(t.fileChunks, id))
        ensures h in StoredHashes(t.chunks)
      {
        assert t'.files[id].completedAt.Some?;
      }
    }
  }

  /** What a file names stays stored under every create but one of that file itself. */
  lemma CreateKeepsNamed(t: Tables, path: Path, m: Manifest, newId: FileId, f: FileId)
    requires Linked(t) && ExactCounts(t) && newId !in t.files && NamesStored(t, f)
    requires Create(t, path, m, newId).1.Recorded? ==> Create(t, path, m, newId).1.file != f
    ensures NamesStored(Create(t, path, m, newId).0, f)
  {
    hide Hashes, Released, Orphans, Attached, Incoming, ExactCounts, Linked, Namers;
    var (t', out) := Create(t, path, m, newId);
    if out.Recorded? {
      assert RefsOf(t'.fileChunks, f) == RefsOf(t.fileChunks, f);
      forall h | h in Hashes(RefsOf(t.fileChunks, f))
        ensures h in StoredHashes(t'.chunks)
      {
        CreateRow(t, path, m, newId, h);
        NamerNamed(t', f, h);
      }
    }
  }

  lemma DeleteKeepsNamed(t: Tables, id: FileId, f: FileId)
    requires Linked(t) && ExactCounts(t) && NamesStored(t, f)
    ensures NamesStored(Delete(t, id).0, f)
  {
    hide Hashes, Released, Orphans, ExactCounts, Linked, Namers;
    var t' := Delete(t, id).0;
    if id in t.files && f != id {
      assert RefsOf(t'.fileChunks, f) == RefsOf(t.fileChunks, f);
      forall h | h in Hashes(RefsOf(t.fileChunks, f))
        ensures h in StoredHashes(t'.chunks)
      {
        DeleteRow(t, id, h);
        NamerNamed(t', f, h);
      }
    } else if id in t.files {
      NothingNamedAtAll();
    }
  }

  lemma NamerNamed(t: Tables, f: FileId, h: Hash)
    requires h in Hashes(RefsOf(t.fileChunks, f))
    ensures Namers(t.fileChunks, h) != {}
  {
    assert f in Namers(t.fileChunks, h) by {
      NothingNamedAtAll();
    }
  }

  lemma NothingNamedAtAll()
    ensures Hashes([]) == {}
  {
  }

  lemma MarksKeepNamed(t: Tables, confirmed: set<Hash>, now: Time, f: FileId)
    requires NamesStored(t, f)
    ensures NamesStored(t.(chunks := Marked(t.chunks, confirmed, now)), f)
  {
    hide Hashes;
  }

  /** The first statement of that transaction adds marks; the last sets the one file's completion time. */
  lemma ConfirmKeeps(t: Tables, confirmed: set<Hash>, now: Time)
    ensures var t' := t.(chunks := Marked(t.chunks, confirmed, now));
            SameButMarks(t, t') && (Counted(t) ==> Counted(t')) && (CompleteIsStored(t) ==> CompleteIsStored(t'))
  {
    hide ExactCounts, Hashes, CompleteIsStored, Namers;
    var t' := t.(chunks := Marked(t.chunks, confirmed, now));
    assert SameButMarks(t, t');
    MarksKeepCounts(t, t');
    if CompleteIsStored(t) {
      MarksKeepStored(t, t');
    }
  }

  lemma MarksKeepStored(t: Tables, t': Tables)
    requires CompleteIsStored(t) && SameButMarks(t, t') && t'.files == t.files
    ensures CompleteIsStored(t')
  {
    hide Hashes, RefsOf, SameButMarks;
    assert t'.fileChunks == t.fileChunks by {
      SameLists(t, t');
    }
    forall f, h | f in t'.files && t'.files[f].completedAt.Some? && h in Hashes(RefsOf(t'.fileChunks, f))
      ensures h in t'.chunks && t'.chunks[h].storedAt.Some?
    {
      StoredStays(t, t', f, h);
    }
  }

  lemma SameLists(t: Tables, t': Tables)
    requires SameButMarks(t, t')
    ensures t'.fileChunks == t.fileChunks
  {
  }

  lemma FinishKeepsCounted(t: Tables, id: FileId, now: Time)
    requires id in t.files
    ensures Counted(t) ==> Counted(Finished(t, id, now))
    ensures Finished(t, id, now).chunks == t.chunks && Finished(t, id, now).fileChunks == t.fileChunks
  {
    MarksKeepCounts(t, Finished(t, id, now));
    hide ExactCounts, Hashes;
  }

  /** With a replace committed in between, it is right exactly when the replace had nothing left to upload. */
  lemma ReplaceBeforeFinish(t: Tables, path: Path, m: Manifest, newId: FileId, now: Time)
    requires Sound(t) && newId !in t.files && Create(t, path, m, newId).1.Recorded?
    ensures var (t', out) := Create(t, path, m, newId);
            out.file in t'.files && (CompleteIsStored(Finished(t', out.file, now)) <==> out.missing == [])
  {
    hide Create, Sound, Counted, ExactCounts, Linked, CompleteIsStored, Namers, Finished, Hashes, StoredHashes, RefsOf;
    var (t', out) := Create(t, path, m, newId);
    SoundIsLinked(t);
    CreateKeepsSound(t, path, m, newId);
    SoundIsLinked(t');
    CreateSparesShared(t, path, m, newId);
    CreateFiles(t, path, m, newId);
    FinishKeepsExactly(t', out.file, now);
    SomeNamed(out.missing);
    NothingLeft(Hashes(m.chunks), StoredHashes(t'.chunks));
  }

  lemma NothingLeft(named: set<Hash>, stored: set<Hash>)
    ensures named - stored == {} <==> named <= stored
  {
    if named - stored == {} {
      forall h | h in named
        ensures h in stored
      {
        assert h !in named - stored;
      }
    }
  }

  lemma SomeNamed(refs: seq<ChunkRef>)
    ensures Hashes(refs) == {} <==> refs == []
  {
    if refs != [] {
      assert refs[|refs| - 1].hash in Hashes(refs);
    }
  }

  lemma CreateFiles(t: Tables, path: Path, m: Manifest, newId: FileId)
    requires Create(t, path, m, newId).1.Recorded?
    ensures Create(t, path, m, newId).1.file in Create(t, path, m, newId).0.files
  {
  }

  // ------------------------------------------------------------------
  // What the quota charges
  // ------------------------------------------------------------------

  /** The addresses some manifest names. */
  ghost function Referenced(t: Tables): set<Hash> {
    set f, h | f in t.fileChunks && h in Hashes(t.fileChunks[f]) :: h
  }

  /** Sharing is free: the quota charges each distinct referenced chunk once, at its length. */
  lemma UsedIsDistinctReferenced(t: Tables, lengthOf: Hash -> nat)
    requires ExactCounts(t) && SizesAgree(t, lengthOf)
    ensures UsedBytes(t) == Total(map h | h in Referenced(t) :: lengthOf(h))
  {
    CountsMeanLive(t);
    forall h
      ensures h in t.chunks <==> h in Referenced(t)
    {
      if h in t.chunks {
        var f :| f in Namers(t.fileChunks, h);
      }
      if h in Referenced(t) {
        var f :| f in t.fileChunks && h in Hashes(t.fileChunks[f]);
        assert f in Namers(t.fileChunks, h);
      }
    }
    assert LiveSizes(t.chunks) == map h | h in Referenced(t) :: lengthOf(h);
  }

  /** Addresses that fix their lengths keep doing so while every manifest respects them. */
  lemma CreateKeepsSizes(t: Tables, path: Path, m: Manifest, newId: FileId, lengthOf: Hash -> nat)
    requires SizesAgree(t, lengthOf) && forall r | r in m.chunks :: r.length == lengthOf(r.hash)
    ensures SizesAgree(Create(t, path, m, newId).0, lengthOf)
  {
    forall h | h in Hashes(m.chunks)
      ensures DeclaredLength(m.chunks, h) == lengthOf(h)
    {
      DeclaredLengthAgrees(m.chunks, lengthOf, h);
    }
  }

  lemma DeleteKeepsSizes(t: Tables, id: FileId, lengthOf: Hash -> nat)
    requires SizesAgree(t, lengthOf)
    ensures SizesAgree(Delete(t, id).0, lengthOf)
  {
    hide Hashes;
  }

  lemma {:induction false} DeclaredLengthAgrees(refs: seq<ChunkRef>, lengthOf: Hash -> nat, h: Hash)
    requires h in Hashes(refs) && forall r | r in refs :: r.length == lengthOf(r.hash)
    ensures DeclaredLength(refs, h) == lengthOf(h)
  {
    var rest := refs[..|refs| - 1];
    if h in Hashes(rest) {
      DeclaredLengthAgrees(rest, lengthOf, h);
    } else {
      assert refs[|refs| - 1].hash == h;
    }
  }
}
