/**
 * Overlapping Files requests. A transaction that holds the account lock is one step; everything else a request
 * does is a step of its own: the three reads and the HEADs of complete-upload and the statements of its unlocked
 * transaction, and the recheck and the removals that follow a create or a delete. A run is any sequence of these.
 */
module FilesRuns {
  import opened Wrappers
  import opened Manifests
  import opened FilesLedger
  import opened FilesRoutes

  type RequestId = nat

  /** Where a request stands between two of its steps. */
  datatype Pending =
    | Committed(orphans: set<Hash>)
    | Removing(todo: set<Hash>)
    | Found(file: FileId)
    | Listed(file: FileId, hashes: set<Hash>)
    | Heading(file: FileId, rows: map<Hash, ChunkRow>, todo: set<Hash>, confirmed: set<Hash>, missing: set<Hash>)
    | Rejecting(next: Pending, h: Hash)
    | Confirmed(file: FileId)
    | Checked(file: FileId)

  datatype World = World(db: Tables, objects: map<Hash, nat>, requests: map<RequestId, Pending>)

  datatype Event =
    | CreateCommits(req: RequestId, path: Path, manifest: Manifest, newId: FileId)
    | DeleteCommits(req: RequestId, file: FileId)
    | Rechecks(req: RequestId)
    | RemovesObject(req: RequestId, h: Hash)
    | CompleteFinds(req: RequestId, file: FileId)
    | CompleteLists(req: RequestId)
    | CompleteReads(req: RequestId)
    | CompleteHeads(req: RequestId, h: Hash)
    | CompleteRejects(req: RequestId)
    | CompleteConfirms(req: RequestId, now: Time)
    | CompleteChecks(req: RequestId)
    | CompleteFinishes(req: RequestId, now: Time)
    | ClientPuts(h: Hash, sizeBytes: nat)

  const START := World(EMPTY_TABLES, map[], map[])

  ghost predicate Enabled(w: World, e: Event) {
    match e
    case CreateCommits(req, path, m, newId) => req !in w.requests && newId !in w.db.files
    case DeleteCommits(req, file) => req !in w.requests
    case Rechecks(req) => req in w.requests && w.requests[req].Committed?
    case RemovesObject(req, h) => req in w.requests && w.requests[req].Removing? && h in w.requests[req].todo
    case CompleteFinds(req, file) => req !in w.requests && file in w.db.files
    case CompleteLists(req) => req in w.requests && w.requests[req].Found?
    case CompleteReads(req) => req in w.requests && w.requests[req].Listed?
    case CompleteHeads(req, h) => req in w.requests && w.requests[req].Heading? && h in w.requests[req].todo
                                  && h in w.requests[req].rows
    case CompleteRejects(req) => req in w.requests && w.requests[req].Rejecting?
    case CompleteConfirms(req, now) => req in w.requests && w.requests[req].Heading? && w.requests[req].todo == {}
    case CompleteChecks(req) => req in w.requests && w.requests[req].Confirmed?
    case CompleteFinishes(req, now) => req in w.requests && w.requests[req].Checked?
    case ClientPuts(h, sizeBytes) => true
  }

  /** The row of one HEAD: already stored, absent, of another length, or confirmed. */
  ghost function Head(p: Pending, objects: map<Hash, nat>, h: Hash): Pending
    requires p.Heading? && h in p.rows
  {
    var next := p.(todo := p.todo - {h});
    if p.rows[h].storedAt.Some? then next
    else if h !in objects then next.(missing := p.missing + {h})
    else if objects[h] != p.rows[h].sizeBytes then Rejecting(next.(missing := p.missing + {h}), h)
    else next.(confirmed := p.confirmed + {h})
  }

  ghost function Step(w: World, e: Event): World {
    if !Enabled(w, e) then w
    else
      match e
      case CreateCommits(req, path, m, newId) =>
        var (db, out) := Create(w.db, path, m, newId);
        w.(db := db, requests := if out.Recorded? then w.requests[req := Committed(out.orphans)] else w.requests)
      case DeleteCommits(req, file) =>
        var (db, orphans) := Delete(w.db, file);
        w.(db := db, requests := if orphans.Some? then w.requests[req := Committed(orphans.value)] else w.requests)
      case Rechecks(req) =>
        w.(requests := w.requests[req := Removing(w.requests[req].orphans - w.db.chunks.Keys)])
      case RemovesObject(req, h) =>
        w.(objects := w.objects - {h},
           requests := w.requests[req := Removing(w.requests[req].todo - {h})])
      case CompleteFinds(req, file) => w.(requests := w.requests[req := Found(file)])
      case CompleteLists(req) =>
        var file := w.requests[req].file;
        w.(requests := w.requests[req := Listed(file, Hashes(RefsOf(w.db.fileChunks, file)))])
      case CompleteReads(req) =>
        var p := w.requests[req];
        var rows := OwnedChunks(w.db.chunks, p.hashes);
        w.(requests := w.requests[req := Heading(p.file, rows, rows.Keys, {}, {})])
      case CompleteHeads(req, h) => w.(requests := w.requests[req := Head(w.requests[req], w.objects, h)])
      case CompleteRejects(req) =>
        w.(objects := w.objects - {w.requests[req].h},
           requests := w.requests[req := w.requests[req].next])
      case CompleteConfirms(req, now) =>
        var p := w.requests[req];
        w.(db := w.db.(chunks := Marked(w.db.chunks, p.confirmed, now)),
           requests := if p.missing != {} then w.requests - {req} else w.requests[req := Confirmed(p.file)])
      case CompleteChecks(req) =>
        var file := w.requests[req].file;
        w.(requests := if file in w.db.files && Unstored(w.db, file) == {} then w.requests[req := Checked(file)]
                       else w.requests - {req})
      case CompleteFinishes(req, now) =>
        var file := w.requests[req].file;
        w.(db := if file in w.db.files then Finished(w.db, file, now) else w.db, requests := w.requests - {req})
      case ClientPuts(h, sizeBytes) => w.(objects := w.objects[h := sizeBytes])
  }

  ghost function Run(w: World, events: seq<Event>): World {
    if events == [] then w else Step(Run(w, events[..|events| - 1]), events[|events| - 1])
  }

  // ------------------------------------------------------------------
  // Rows: every interleaving
  // ------------------------------------------------------------------

  lemma StepKeepsCounted(w: World, e: Event)
    requires Counted(w.db)
    ensures Counted(Step(w, e).db)
  {
    hide Counted, Create, Delete, Finished, Marked;
    if Enabled(w, e) {
      match e
      case CreateCommits(req, path, m, newId) => CreateKeepsCounted(w.db, path, m, newId);
      case DeleteCommits(req, file) => DeleteKeepsCounted(w.db, file);
      case CompleteConfirms(req, now) => ConfirmKeeps(w.db, w.requests[req].confirmed, now);
      case CompleteFinishes(req, now) =>
        if w.requests[req].file in w.db.files {
          FinishKeepsCounted(w.db, w.requests[req].file, now);
        }
      case _ =>
    }
  }

  lemma {:induction false} RunsStayCounted(events: seq<Event>)
    ensures Counted(Run(START, events).db)
  {
    if events == [] {
      SoundAtFirst();
    } else {
      RunsStayCounted(events[..|events| - 1]);
      StepKeepsCounted(Run(START, events[..|events| - 1]), events[|events| - 1]);
    }
  }

  /** Marking a file complete is safe when its chunks are stored; every other step is safe as it is. */
  ghost predicate FinishSafe(w: World, e: Event)
    requires Enabled(w, e)
  {
    match e
    case CompleteFinishes(req, now) => w.requests[req].file in w.db.files ==> NamesStored(w.db, w.requests[req].file)
    case _ => true
  }

  lemma SoundExactlyWhenSafe(w: World, e: Event)
    requires Sound(w.db) && Enabled(w, e)
    ensures Sound(Step(w, e).db) <==> FinishSafe(w, e)
  {
    hide Sound, Counted, CompleteIsStored, Create, Delete, Finished, Marked, NamesStored;
    SoundIsLinked(w.db);
    SoundIsLinked(Step(w, e).db);
    StepKeepsCounted(w, e);
    match e
    case CreateCommits(req, path, m, newId) => CreateKeepsSound(w.db, path, m, newId);
    case DeleteCommits(req, file) => DeleteKeepsSound(w.db, file);
    case CompleteConfirms(req, now) => ConfirmKeeps(w.db, w.requests[req].confirmed, now);
    case CompleteFinishes(req, now) =>
      if w.requests[req].file in w.db.files {
        FinishKeepsExactly(w.db, w.requests[req].file, now);
      }
    case _ =>
  }

  /** Every file is marked complete at a moment at which its chunks are stored. */
  ghost predicate FinishesSafe(events: seq<Event>) {
    events == [] ||
    (FinishesSafe(events[..|events| - 1])
     && (var w, e := Run(START, events[..|events| - 1]), events[|events| - 1]; Enabled(w, e) ==> FinishSafe(w, e)))
  }

  ghost predicate SoundAfter(events: seq<Event>) {
    Sound(Run(START, events).db)
  }

  ghost predicate SoundThroughout(events: seq<Event>) {
    forall k | 0 <= k <= |events| :: SoundAfter(events[..k])
  }

  lemma SoundSnoc(events: seq<Event>)
    requires events != []
    ensures SoundThroughout(events) <==> SoundThroughout(events[..|events| - 1]) && SoundAfter(events)
  {
    hide SoundAfter;
    var n := |events| - 1;
    assert forall k | 0 <= k <= n :: events[..n][..k] == events[..k];
    assert events[..|events|] == events;
  }

  /**
   * In every run, statements of unlocked transactions interleaved as they may be: counts are exact, a row exists
   * exactly while some file names its chunk, and the account is within its quota. And all along the run a file
   * marked complete names stored rows only, exactly when every marking finds its chunks stored.
   */
  lemma {:induction false} RunsStaySound(events: seq<Event>)
    ensures Counted(Run(START, events).db)
    ensures SoundThroughout(events) <==> FinishesSafe(events)
  {
    RunsStayCounted(events);
    if events == [] {
      assert events[..0] == [];
      SoundAtFirst();
    } else {
      var before, e := events[..|events| - 1], events[|events| - 1];
      RunsStaySound(before);
      SoundSnoc(events);
      var w := Run(START, before);
      assert Run(START, events) == Step(w, e);
      assert SoundThroughout(before) ==> SoundAfter(before) by {
        assert before[..|before|] == before;
      }
      hide Run, Sound, Counted, FinishSafe, SoundThroughout;
      if Enabled(w, e) && Sound(w.db) {
        SoundExactlyWhenSafe(w, e);
      }
    }
  }

  /** What the check of complete-upload finds out is so at that moment. */
  lemma CheckedIsStored(w: World, req: RequestId)
    requires Counted(w.db) && Enabled(w, CompleteChecks(req))
    ensures var (f, w') := (w.requests[req].file, Step(w, CompleteChecks(req)));
            && w'.db == w.db
            && (req in w'.requests <==> f in w.db.files && NamesStored(w.db, f))
            && (req in w'.requests ==> w'.requests[req] == Checked(f))
  {
    hide Counted, NamesStored, Unstored;
    SoundIsLinked(w.db);
    CheckIsExact(w.db, w.requests[req].file);
  }

  /** The step records a manifest for this very file. */
  ghost predicate Replaces(w: World, e: Event, f: FileId) {
    && e.CreateCommits? && Enabled(w, e)
    && var out := Create(w.db, e.path, e.manifest, e.newId).1; out.Recorded? && out.file == f
  }

  lemma NamedStaysStored(w: World, e: Event, f: FileId)
    requires Counted(w.db) && NamesStored(w.db, f) && !Replaces(w, e, f)
    ensures NamesStored(Step(w, e).db, f)
  {
    hide Counted, Create, Delete, Finished, Marked, NamesStored;
    SoundIsLinked(w.db);
    if Enabled(w, e) {
      match e
      case CreateCommits(req, path, m, newId) => CreateKeepsNamed(w.db, path, m, newId, f);
      case DeleteCommits(req, file) => DeleteKeepsNamed(w.db, file, f);
      case CompleteConfirms(req, now) => MarksKeepNamed(w.db, w.requests[req].confirmed, now, f);
      case CompleteFinishes(req, now) =>
        if w.requests[req].file in w.db.files {
          FinishKeepsNamed(w.db, w.requests[req].file, now, f);
        }
      case _ =>
    }
  }

  lemma FinishKeepsNamed(t: Tables, id: FileId, now: Time, f: FileId)
    requires id in t.files
    ensures NamesStored(Finished(t, id, now), f) <==> NamesStored(t, f)
  {
  }

  /**
   * Only a replace can spoil a check: in every run, after the check of a file has passed, and until a manifest is
   * recorded for that very file, marking it complete is safe, whatever else commits in between.
   */
  lemma {:induction false} OnlyAReplaceSpoilsTheCheck(events: seq<Event>, i: nat, req: RequestId, f: FileId)
    requires i < |events| && events[i] == CompleteChecks(req) && Enabled(Run(START, events[..i]), events[i])
    requires var w := Run(START, events[..i + 1]); req in w.requests && w.requests[req] == Checked(f)
    requires forall k | i < k < |events| :: !Replaces(Run(START, events[..k]), events[k], f)
    ensures NamesStored(Run(START, events).db, f)
    decreases |events|
  {
    var n := |events| - 1;
    assert events[..n + 1] == events;
    RunSnoc(START, events, n);
    RunsStayCounted(events[..n]);
    hide Run, NamesStored, Replaces, Counted;
    if i == n {
      CheckedIsStored(Run(START, events[..n]), req);
    } else {
      var before := events[..n];
      assert before[..i] == events[..i] && before[..i + 1] == events[..i + 1];
      forall k | i < k < |before|
        ensures !Replaces(Run(START, before[..k]), before[k], f)
      {
        assert before[..k] == events[..k];
      }
      OnlyAReplaceSpoilsTheCheck(before, i, req, f);
      NamedStaysStored(Run(START, before), events[n], f);
    }
  }

  /** The three statements of complete-upload, nothing in between. */
  ghost function AfterStatements(w: World, req: RequestId, now: Time): World {
    Step(Step(Step(w, CompleteConfirms(req, now)), CompleteChecks(req)), CompleteFinishes(req, now))
  }

  /** They are the transaction. */
  lemma StatementsMakeComplete(w: World, req: RequestId, now: Time)
    requires Enabled(w, CompleteConfirms(req, now))
    ensures var (p, w') := (w.requests[req], AfterStatements(w, req, now));
            w'.db == Complete(w.db, p.file, p.confirmed, p.missing, now).0 && w'.requests == w.requests - {req}
  {
    hide Marked, Unstored, Hashes, RefsOf;
  }

  /**
   * Marks survive. Along any step of any run a row that stays keeps its mark once it has one, and the only
   * rows that go are those no file names any more.
   */
  lemma MarksSurvive(events: seq<Event>, e: Event, h: Hash)
    requires h in Run(START, events).db.chunks
    ensures var (t, t') := (Run(START, events).db, Step(Run(START, events), e).db);
            && (h !in t'.chunks <==> Namers(t'.fileChunks, h) == {})
            && (h in t'.chunks && t.chunks[h].storedAt.Some? ==> t'.chunks[h].storedAt == t.chunks[h].storedAt)
  {
    hide Run, Counted, ExactCounts, Linked, Create, Delete, Marked, Finished, Namers, Head, OwnedChunks, Unstored;
    var w := Run(START, events);
    RunsStayCounted(events);
    StepKeepsCounted(w, e);
    SoundIsLinked(w.db);
    SoundIsLinked(Step(w, e).db);
    RowsAreNamed(Step(w, e).db, h);
    if Enabled(w, e) {
      match e
      case CreateCommits(req, path, m, newId) => CreateKeepsMark(w.db, path, m, newId, h);
      case DeleteCommits(req, file) => DeleteKeepsMark(w.db, file, h);
      case CompleteConfirms(req, now) => ConfirmKeepsMark(w.db, w.requests[req].confirmed, now, h);
      case CompleteFinishes(req, now) =>
        if w.requests[req].file in w.db.files {
          FinishKeepsCounted(w.db, w.requests[req].file, now);
        }
      case _ =>
    }
  }

  lemma CreateKeepsMark(t: Tables, path: Path, m: Manifest, newId: FileId, h: Hash)
    requires Linked(t) && ExactCounts(t) && newId !in t.files && h in t.chunks
    ensures var t' := Create(t, path, m, newId).0;
            h in t'.chunks ==> t'.chunks[h].storedAt == t.chunks[h].storedAt
  {
    if Create(t, path, m, newId).1.Recorded? {
      CreateRow(t, path, m, newId, h);
      hide Create, Namers;
    }
  }

  lemma DeleteKeepsMark(t: Tables, id: FileId, h: Hash)
    requires Linked(t) && ExactCounts(t) && h in t.chunks
    ensures var t' := Delete(t, id).0;
            h in t'.chunks ==> t'.chunks[h].storedAt == t.chunks[h].storedAt
  {
    if id in t.files {
      DeleteRow(t, id, h);
      hide Delete, Namers;
    }
  }

  lemma ConfirmKeepsMark(t: Tables, confirmed: set<Hash>, now: Time, h: Hash)
    requires h in t.chunks
    ensures var marked := Marked(t.chunks, confirmed, now);
            h in marked && (t.chunks[h].storedAt.Some? ==> marked[h].storedAt == t.chunks[h].storedAt)
  {
  }

  lemma RowsAreNamed(t: Tables, h: Hash)
    requires ExactCounts(t)
    ensures h in t.chunks <==> Namers(t.fileChunks, h) != {}
  {
  }

  /** Every manifest recorded in the run gives each address the one length it stands for. */
  ghost predicate RespectsLengths(events: seq<Event>, lengthOf: Hash -> nat) {
    forall e, r | e in events && e.CreateCommits? && r in e.manifest.chunks :: r.length == lengthOf(r.hash)
  }

  lemma {:induction false} RunsKeepSizes(events: seq<Event>, lengthOf: Hash -> nat)
    requires RespectsLengths(events, lengthOf)
    ensures SizesAgree(Run(START, events).db, lengthOf)
  {
    if events != [] {
      var before, e := events[..|events| - 1], events[|events| - 1];
      RunsKeepSizes(before, lengthOf);
      var w := Run(START, before);
      assert e in events;
      assert Run(START, events) == Step(w, e);
      hide SizesAgree, Create, Delete, Finished, Marked, Run;
      if Enabled(w, e) {
        match e
        case CreateCommits(req, path, m, newId) => CreateKeepsSizes(w.db, path, m, newId, lengthOf);
        case DeleteCommits(req, file) => DeleteKeepsSizes(w.db, file, lengthOf);
        case CompleteConfirms(req, now) => ConfirmKeepsSizes(w.db, w.requests[req].confirmed, now, lengthOf);
        case CompleteFinishes(req, now) =>
          if w.requests[req].file in w.db.files {
            FinishKeepsSizes(w.db, w.requests[req].file, now, lengthOf);
          }
        case _ =>
      }
    }
  }

  lemma ConfirmKeepsSizes(t: Tables, confirmed: set<Hash>, now: Time, lengthOf: Hash -> nat)
    requires SizesAgree(t, lengthOf)
    ensures SizesAgree(t.(chunks := Marked(t.chunks, confirmed, now)), lengthOf)
  {
  }

  lemma FinishKeepsSizes(t: Tables, id: FileId, now: Time, lengthOf: Hash -> nat)
    requires SizesAgree(t, lengthOf) && id in t.files
    ensures SizesAgree(Finished(t, id, now), lengthOf)
  {
  }

  /**
   * In every run the account is charged for each distinct chunk its files name, once, at its length; and
   * never more than its limit.
   */
  lemma RunsChargeDistinctChunks(events: seq<Event>, lengthOf: Hash -> nat)
    requires RespectsLengths(events, lengthOf)
    ensures var t := Run(START, events).db;
            UsedBytes(t) == Total(map h | h in Referenced(t) :: lengthOf(h)) <= PRO_QUOTA_BYTES
  {
    RunsStayCounted(events);
    RunsKeepSizes(events, lengthOf);
    UsedIsDistinctReferenced(Run(START, events).db, lengthOf);
  }

  // ------------------------------------------------------------------
  // A request with nothing in between is the route
  // ------------------------------------------------------------------

  /** The state after some of the HEADs over `rows`: what the ones done so far find in the bucket as it was. */
  ghost predicate Tallies(p: Pending, file: FileId, rows: map<Hash, ChunkRow>, objects: map<Hash, nat>) {
    && p.Heading? && p.file == file && p.rows == rows && p.todo <= rows.Keys
    && p.confirmed == HeadConfirmed(rows - p.todo, objects)
    && p.missing == HeadMissing(rows - p.todo, objects)
  }

  /** Between two HEADs, or between one that found another length and the removal of that object. */
  ghost predicate HeadsSoFar(p: Pending, file: FileId, rows: map<Hash, ChunkRow>, before: map<Hash, nat>,
                             objects: map<Hash, nat>) {
    if p.Rejecting?
    then Tallies(p.next, file, rows, before) && p.h in p.next.missing && objects == before - (p.next.missing - {p.h})
    else Tallies(p, file, rows, before) && objects == before - p.missing
  }

  lemma HeadTallies(p: Pending, file: FileId, rows: map<Hash, ChunkRow>, before: map<Hash, nat>,
                    objects: map<Hash, nat>, h: Hash)
    requires HeadsSoFar(p, file, rows, before, objects) && p.Heading? && h in p.todo
    ensures HeadsSoFar(Head(p, objects, h), file, rows, before, objects)
  {
    var next := p.(todo := p.todo - {h});
    assert h !in p.missing;
    assert h in objects <==> h in before;
    assert rows - next.todo == (rows - p.todo)[h := rows[h]];
    assert HeadConfirmed(rows - next.todo, before)
        == HeadConfirmed(rows - p.todo, before)
           + if rows[h].storedAt.None? && Uploaded(rows, before, h) then {h} else {};
    assert HeadMissing(rows - next.todo, before)
        == HeadMissing(rows - p.todo, before)
           + if rows[h].storedAt.None? && !Uploaded(rows, before, h) then {h} else {};
    assert h !in objects ==> before - p.missing == before - (p.missing + {h});
    assert before - (p.missing + {h} - {h}) == before - p.missing;
  }

  /** All these steps are HEADs of one request, or removals of what they reject. */
  ghost predicate OnlyHeads(events: seq<Event>, req: RequestId) {
    forall e | e in events :: (e.CompleteHeads? || e.CompleteRejects?) && e.req == req
  }

  lemma HeadStep(w: World, e: Event, req: RequestId, file: FileId, rows: map<Hash, ChunkRow>, before: map<Hash, nat>)
    requires req in w.requests && HeadsSoFar(w.requests[req], file, rows, before, w.objects)
    requires (e.CompleteHeads? || e.CompleteRejects?) && e.req == req
    ensures var w' := Step(w, e);
            && w'.db == w.db && req in w'.requests && w'.requests == w.requests[req := w'.requests[req]]
            && HeadsSoFar(w'.requests[req], file, rows, before, w'.objects)
  {
    if Enabled(w, e) {
      var p := w.requests[req];
      if e.CompleteHeads? {
        HeadTallies(p, file, rows, before, w.objects, e.h);
        hide HeadsSoFar, Head;
      } else {
        assert before - (p.next.missing - {p.h}) - {p.h} == before - p.next.missing;
      }
    }
  }

  /** The HEADs of a request have the rows just read, and nothing found yet. */
  ghost predicate StartsHeads(w: World, req: RequestId, file: FileId, rows: map<Hash, ChunkRow>) {
    req in w.requests && w.requests[req] == Heading(file, rows, rows.Keys, {}, {})
  }

  /** Whichever way they are ordered, with nothing in between. */
  lemma {:induction false} HeadsInAnyOrder(w: World, req: RequestId, file: FileId, rows: map<Hash, ChunkRow>,
                                           events: seq<Event>)
    requires StartsHeads(w, req, file, rows) && OnlyHeads(events, req)
    ensures var w' := Run(w, events);
            && w'.db == w.db && req in w'.requests && w'.requests == w.requests[req := w'.requests[req]]
            && HeadsSoFar(w'.requests[req], file, rows, w.objects, w'.objects)
  {
    if events == [] {
      assert rows - rows.Keys == map[];
      assert w.objects - {} == w.objects;
    } else {
      var before, e := events[..|events| - 1], events[|events| - 1];
      HeadsInAnyOrder(w, req, file, rows, before);
      hide HeadsSoFar, Step;
      HeadStep(Run(w, before), e, req, file, rows, w.objects);
    }
  }

  /** Once they are done they have confirmed, missed and removed what the loop of the route does. */
  lemma HeadsAreTheRoutes(w: World, req: RequestId, file: FileId, rows: map<Hash, ChunkRow>, events: seq<Event>,
                          now: Time)
    requires StartsHeads(w, req, file, rows) && OnlyHeads(events, req)
    requires Enabled(Run(w, events), CompleteConfirms(req, now))
    ensures var (confirmed, missing, w') := (HeadConfirmed(rows, w.objects), HeadMissing(rows, w.objects),
                                             Run(w, events));
            && w'.db == w.db && w'.objects == w.objects - missing
            && w'.requests == w.requests[req := Heading(file, rows, {}, confirmed, missing)]
  {
    HeadsInAnyOrder(w, req, file, rows, events);
    hide HeadConfirmed, HeadMissing, Run, OnlyHeads;
    assert rows - {} == rows;
  }

  /** The three reads of a complete-upload, nothing in between. */
  ghost function AfterReads(w: World, req: RequestId, file: FileId): World {
    Step(Step(Step(w, CompleteFinds(req, file)), CompleteLists(req)), CompleteReads(req))
  }

  lemma ReadsAreRows(w: World, req: RequestId, file: FileId)
    requires Enabled(w, CompleteFinds(req, file))
    ensures var w' := AfterReads(w, req, file);
            && StartsHeads(w', req, file, RowsOf(w.db, file))
            && w'.db == w.db && w'.objects == w.objects && w'.requests - {req} == w.requests
  {
    hide OwnedChunks, Hashes, RefsOf;
    var rows := RowsOf(w.db, file);
    assert AfterReads(w, req, file).requests == w.requests[req := Heading(file, rows, rows.Keys, {}, {})];
  }

  /** A complete-upload of a file, its steps in their order and nothing in between, is the route. */
  lemma CompleteRunIsTheRoute(w: World, req: RequestId, file: FileId, heads: seq<Event>, now: Time)
    requires Enabled(w, CompleteFinds(req, file)) && OnlyHeads(heads, req)
    requires Enabled(Run(AfterReads(w, req, file), heads), CompleteConfirms(req, now))
    ensures var rows := RowsOf(w.db, file);
            var (confirmed, missing) := (HeadConfirmed(rows, w.objects), HeadMissing(rows, w.objects));
            AfterStatements(Run(AfterReads(w, req, file), heads), req, now)
            == World(Complete(w.db, file, confirmed, missing, now).0, w.objects - missing, w.requests)
  {
    hide *;
    var r, rows := AfterReads(w, req, file), RowsOf(w.db, file);
    ReadsAreRows(w, req, file);
    HeadsAreTheRoutes(r, req, file, rows, heads, now);
    var h := Run(r, heads);
    StatementsMakeComplete(h, req, now);
    StatementsKeepObjects(h, req, now);
    assert h.requests - {req} == r.requests - {req};
  }

  lemma StatementsKeepObjects(w: World, req: RequestId, now: Time)
    requires Enabled(w, CompleteConfirms(req, now))
    ensures AfterStatements(w, req, now).objects == w.objects
  {
    hide Marked, Unstored, Finished;
  }

  /** Removals of one request, in any order and nothing in between. */
  lemma {:induction false} RemovalsInAnyOrder(w: World, req: RequestId, events: seq<Event>)
    requires req in w.requests && w.requests[req].Removing?
    requires forall e | e in events :: e.RemovesObject? && e.req == req
    ensures var w' := Run(w, events);
            && w'.db == w.db && req in w'.requests && w'.requests[req].Removing?
            && w'.requests[req].todo <= w.requests[req].todo
            && w'.objects == w.objects - (w.requests[req].todo - w'.requests[req].todo)
  {
    if events == [] {
      assert w.objects - {} == w.objects;
    } else {
      var before, e := events[..|events| - 1], events[|events| - 1];
      RemovalsInAnyOrder(w, req, before);
      var (todo, v, w') := (w.requests[req].todo, Run(w, before), Run(w, events));
      if Enabled(v, e) {
        assert w'.objects == w.objects - (todo - v.requests[req].todo) - {e.h};
        assert todo - v.requests[req].todo + {e.h} == todo - w'.requests[req].todo;
      }
    }
  }

  /** The recheck and the removals of a request, nothing in between. */
  ghost function AfterRemovals(w: World, req: RequestId, events: seq<Event>): World {
    Run(Step(w, Rechecks(req)), events)
  }

  ghost predicate RemovesAll(w: World, req: RequestId, events: seq<Event>) {
    && (forall e | e in events :: e.RemovesObject? && e.req == req)
    && var p := AfterRemovals(w, req, events).requests; req in p && p[req] == Removing({})
  }

  lemma RemovalsAreTheRoutes(w: World, req: RequestId, events: seq<Event>)
    requires Enabled(w, Rechecks(req)) && RemovesAll(w, req, events)
    ensures var w' := AfterRemovals(w, req, events);
            w'.db == w.db && w'.objects == w.objects - (w.requests[req].orphans - w.db.chunks.Keys)
  {
    RemovalsInAnyOrder(Step(w, Rechecks(req)), req, events);
    hide Run;
  }

  /** A create, its steps in their order and nothing in between, is the route. */
  lemma CreateRunIsTheRoute(w: World, req: RequestId, path: Path, m: Manifest, newId: FileId, events: seq<Event>)
    requires Enabled(w, CreateCommits(req, path, m, newId)) && Create(w.db, path, m, newId).1.Recorded?
    requires RemovesAll(Step(w, CreateCommits(req, path, m, newId)), req, events)
    ensures var (t, out) := Create(w.db, path, m, newId);
            var w' := AfterRemovals(Step(w, CreateCommits(req, path, m, newId)), req, events);
            w'.db == t && w'.objects == w.objects - (out.orphans - t.chunks.Keys)
  {
    hide Create, RemovesAll, AfterRemovals;
    RemovalsAreTheRoutes(Step(w, CreateCommits(req, path, m, newId)), req, events);
  }

  /** And so is a delete. */
  lemma DeleteRunIsTheRoute(w: World, req: RequestId, file: FileId, events: seq<Event>)
    requires Enabled(w, DeleteCommits(req, file)) && file in w.db.files
    requires RemovesAll(Step(w, DeleteCommits(req, file)), req, events)
    ensures var (t, orphans) := Delete(w.db, file);
            var w' := AfterRemovals(Step(w, DeleteCommits(req, file)), req, events);
            orphans.Some? && w'.db == t && w'.objects == w.objects - (orphans.value - t.chunks.Keys)
  {
    DeleteFinds(w.db, file);
    hide Delete, RemovesAll, AfterRemovals;
    RemovalsAreTheRoutes(Step(w, DeleteCommits(req, file)), req, events);
  }

  lemma DeleteFinds(t: Tables, file: FileId)
    requires file in t.files
    ensures Delete(t, file).1.Some?
  {
  }

  // ------------------------------------------------------------------
  // Files are what was last recorded for them
  // ------------------------------------------------------------------

  /** The step deletes this very file. */
  ghost predicate Deletes(w: World, e: Event, f: FileId) {
    e.DeleteCommits? && Enabled(w, e) && e.file == f && f in w.db.files
  }

  /** The file is recorded as this manifest, under this path. */
  ghost predicate IsAs(t: Tables, f: FileId, path: Path, m: Manifest) {
    && f in t.files && t.files[f].path == path
    && t.files[f].fileHash == m.fileHash && t.files[f].sizeBytes == m.totalBytes
    && f in t.fileChunks && t.fileChunks[f] == m.chunks
  }

  /** Step `k` of the run records this file, and no later one replaces or deletes it. */
  ghost predicate LastRecordedAt(events: seq<Event>, k: nat, f: FileId)
    requires k < |events|
  {
    && Replaces(Run(START, events[..k]), events[k], f)
    && forall j | k < j < |events| ::
         !Replaces(Run(START, events[..j]), events[j], f) && !Deletes(Run(START, events[..j]), events[j], f)
  }

  lemma RecordsIt(w: World, e: Event, f: FileId)
    requires Counted(w.db) && Replaces(w, e, f)
    ensures e.CreateCommits? && IsAs(Step(w, e).db, f, e.path, e.manifest)
  {
    hide Counted, Create;
    SoundIsLinked(w.db);
    CreateWritesItsFile(w.db, e.path, e.manifest, e.newId);
  }

  lemma DeletesIt(w: World, e: Event, f: FileId)
    requires Deletes(w, e, f)
    ensures f !in Step(w, e).db.files
  {
    hide Delete;
    DeleteTakesItsFile(w.db, e.file);
  }

  /** The file, but for its completion mark, is the same in both tables, or in neither. */
  ghost predicate SameFile(t: Tables, t': Tables, f: FileId) {
    && (f in t'.files <==> f in t.files)
    && (f in t.files ==> t'.files[f].(completedAt := None) == t.files[f].(completedAt := None))
    && (f in t'.fileChunks <==> f in t.fileChunks)
    && (f in t.fileChunks ==> t'.fileChunks[f] == t.fileChunks[f])
  }

  lemma SameFileIsAs(t: Tables, t': Tables, f: FileId, path: Path, m: Manifest)
    requires SameFile(t, t', f)
    ensures IsAs(t, f, path, m) <==> IsAs(t', f, path, m)
    ensures f in t.files <==> f in t'.files
    ensures IsAs(t, f, path, m) ==> f in t.files
  {
  }

  lemma CreateLeaves(t: Tables, path: Path, m: Manifest, newId: FileId, f: FileId)
    requires Linked(t) && newId !in t.files
    requires var out := Create(t, path, m, newId).1; out.Recorded? ==> out.file != f
    ensures SameFile(t, Create(t, path, m, newId).0, f)
  {
    hide Create, Linked;
    if Create(t, path, m, newId).1.Recorded? {
      CreateWritesItsFile(t, path, m, newId);
    }
  }

  lemma DeleteLeaves(t: Tables, file: FileId, f: FileId)
    requires file == f ==> f !in t.files
    ensures SameFile(t, Delete(t, file).0, f)
  {
    if file in t.files {
      hide Delete;
      DeleteTakesItsFile(t, file);
    }
  }

  lemma FinishLeaves(t: Tables, id: FileId, now: Time, f: FileId)
    requires id in t.files
    ensures SameFile(t, Finished(t, id, now), f)
  {
  }

  /** Any step that neither records nor deletes the file leaves it as it is. */
  lemma LeavesIt(w: World, e: Event, f: FileId)
    requires Counted(w.db) && !Replaces(w, e, f) && !Deletes(w, e, f)
    ensures SameFile(w.db, Step(w, e).db, f)
  {
    SoundIsLinked(w.db);
    hide Counted, Linked, Create, Delete, Finished, Marked, Head, OwnedChunks, Unstored;
    if Enabled(w, e) {
      match e
      case CreateCommits(req, path, m, newId) => CreateLeaves(w.db, path, m, newId, f);
      case DeleteCommits(req, file) => DeleteLeaves(w.db, file, f);
      case CompleteFinishes(req, now) =>
        if w.requests[req].file in w.db.files {
          FinishLeaves(w.db, w.requests[req].file, now, f);
        }
      case _ =>
    }
  }

  /** Which step recorded the file last, after one more step. */
  lemma LastAfter(events: seq<Event>, k: nat, f: FileId)
    requires events != [] && k < |events|
    ensures var (n, before) := (|events| - 1, events[..|events| - 1]);
            var w := Run(START, before);
            LastRecordedAt(events, k, f)
            <==> if k == n then Replaces(w, events[n], f)
                 else LastRecordedAt(before, k, f) && !Replaces(w, events[n], f) && !Deletes(w, events[n], f)
  {
    hide Replaces, Deletes, Run;
    var before := events[..|events| - 1];
    assert forall j | 0 <= j <= |before| :: before[..j] == events[..j];
  }

  /** Step `k` recorded the file last, and the file is as it says. */
  ghost predicate IsAsRecorded(t: Tables, events: seq<Event>, k: nat, f: FileId)
    requires k < |events|
  {
    events[k].CreateCommits? && IsAs(t, f, events[k].path, events[k].manifest)
  }

  lemma RecordedAs(t: Tables, events: seq<Event>, k: nat, f: FileId)
    requires k < |events|
    ensures IsAsRecorded(t, events, k, f) <==>
              events[k].CreateCommits? && IsAs(t, f, events[k].path, events[k].manifest)
  {
  }

  lemma LastStep(events: seq<Event>)
    requires events != []
    ensures Run(START, events) == Step(Run(START, events[..|events| - 1]), events[|events| - 1])
  {
  }

  /** One step: what the step before it leaves, or what it records itself. */
  lemma IsAsAfter(events: seq<Event>, k: nat, f: FileId)
    requires k < |events| && LastRecordedAt(events, k, f)
    requires var before := events[..|events| - 1];
             k < |before| ==> IsAsRecorded(Run(START, before).db, before, k, f)
    ensures IsAsRecorded(Run(START, events).db, events, k, f)
  {
    hide *;
    var n := |events| - 1;
    var before, e, w := events[..n], events[n], Run(START, events[..n]);
    LastStep(events);
    LastAfter(events, k, f);
    RunsStayCounted(before);
    RecordedAs(Step(w, e).db, events, k, f);
    if k == n {
      RecordsIt(w, e, f);
    } else {
      LeavesIt(w, e, f);
      RecordedAs(w.db, before, k, f);
      assert before[k] == events[k];
      SameFileIsAs(w.db, Step(w, e).db, f, events[k].path, events[k].manifest);
    }
  }

  /** Whether the file is there after a step. */
  lemma ThereAfter(w: World, e: Event, f: FileId)
    requires Counted(w.db)
    ensures f in Step(w, e).db.files <==> Replaces(w, e, f) || (f in w.db.files && !Deletes(w, e, f))
  {
    hide Step, Counted, Create, Enabled;
    if Replaces(w, e, f) {
      RecordsIt(w, e, f);
    } else if Deletes(w, e, f) {
      DeletesIt(w, e, f);
    } else {
      LeavesIt(w, e, f);
    }
  }

  ghost predicate SomeRecordedLast(events: seq<Event>, f: FileId) {
    exists k | 0 <= k < |events| :: LastRecordedAt(events, k, f)
  }

  lemma SomeLastAfter(events: seq<Event>, f: FileId)
    requires events != []
    ensures var (n, before) := (|events| - 1, events[..|events| - 1]);
            var w := Run(START, before);
            SomeRecordedLast(events, f)
            <==> Replaces(w, events[n], f) || (SomeRecordedLast(before, f) && !Deletes(w, events[n], f))
  {
    hide Run, LastRecordedAt, Replaces, Deletes;
    var n, before := |events| - 1, events[..|events| - 1];
    var w := Run(START, before);
    LastAfter(events, n, f);
    if SomeRecordedLast(events, f) {
      var k :| 0 <= k < |events| && LastRecordedAt(events, k, f);
      LastAfter(events, k, f);
    }
    if SomeRecordedLast(before, f) {
      var k :| 0 <= k < |before| && LastRecordedAt(before, k, f);
      LastAfter(events, k, f);
    }
  }

  /** In every run a file is what was last recorded for it: one manifest's address, size and chunks together. */
  lemma {:induction false} FileIsAsRecorded(events: seq<Event>, k: nat, f: FileId)
    requires k < |events| && LastRecordedAt(events, k, f)
    ensures IsAsRecorded(Run(START, events).db, events, k, f)
    decreases |events|
  {
    var before := events[..|events| - 1];
    LastAfter(events, k, f);
    if k < |before| {
      FileIsAsRecorded(before, k, f);
    }
    hide *;
    IsAsAfter(events, k, f);
  }

  /** And the files there are those some step recorded and no later step deleted. */
  lemma {:induction false} FilesThereWereRecorded(events: seq<Event>, f: FileId)
    ensures f in Run(START, events).db.files <==> SomeRecordedLast(events, f)
  {
    if events != [] {
      var n := |events| - 1;
      FilesThereWereRecorded(events[..n], f);
      RunsStayCounted(events[..n]);
      SomeLastAfter(events, f);
      ThereAfter(Run(START, events[..n]), events[n], f);
      hide Step, SomeRecordedLast, Replaces, Deletes, Counted;
    }
  }

  // ------------------------------------------------------------------
  // The bucket: exactly when a step keeps it behind the rows
  // ------------------------------------------------------------------

  ghost predicate IsStored(t: Tables, h: Hash) {
    h in t.chunks && t.chunks[h].storedAt.Some?
  }

  /**
   * What a step would have to look at to leave every stored chunk backed: the marking of confirmed chunks, whether
   * the objects its HEADs saw are still there; a removal, whether the chunk has been stored again meanwhile; an
   * upload, whether it changes the length of a stored chunk. Every other step is safe as it is.
   */
  ghost predicate BucketSafe(w: World, e: Event)
    requires Enabled(w, e)
  {
    match e
    case RemovesObject(req, h) => !IsStored(w.db, h)
    case CompleteRejects(req) => !IsStored(w.db, w.requests[req].h)
    case CompleteConfirms(req, now) =>
      forall h | h in w.requests[req].confirmed && h in w.db.chunks :: Uploaded(w.db.chunks, w.objects, h)
    case ClientPuts(h, sizeBytes) => IsStored(w.db, h) ==> sizeBytes == w.db.chunks[h].sizeBytes
    case _ => true
  }

  lemma CommitBackedExactly(t: Tables, objects: map<Hash, nat>, confirmed: set<Hash>, now: Time)
    requires Backed(t, objects)
    ensures Backed(t.(chunks := Marked(t.chunks, confirmed, now)), objects)
       <==> forall h | h in confirmed && h in t.chunks :: Uploaded(t.chunks, objects, h)
  {
    var t' := t.(chunks := Marked(t.chunks, confirmed, now));
    if Backed(t', objects) {
      forall h | h in confirmed && h in t.chunks
        ensures Uploaded(t.chunks, objects, h)
      {
        assert h in t'.chunks && t'.chunks[h].storedAt.Some?;
      }
    }
  }

  /** A step taken with every stored chunk backed leaves it so if, and only if, it is safe in that sense. */
  lemma BackedExactlyWhenSafe(w: World, e: Event)
    requires Counted(w.db) && Backed(w.db, w.objects) && Enabled(w, e)
    ensures Backed(Step(w, e).db, Step(w, e).objects) <==> BucketSafe(w, e)
  {
    hide Create, Delete, Finished, Backed, Counted, Uploaded;
    SoundIsLinked(w.db);
    match e
    case CreateCommits(req, path, m, newId) => CreateBacked(w.db, w.objects, path, m, newId);
    case DeleteCommits(req, file) => DeleteBacked(w.db, w.objects, file);
    case CompleteConfirms(req, now) => CommitBackedExactly(w.db, w.objects, w.requests[req].confirmed, now);
    case CompleteFinishes(req, now) =>
      if w.requests[req].file in w.db.files {
        FinishKeepsCounted(w.db, w.requests[req].file, now);
        BackedByRows(w.db, Finished(w.db, w.requests[req].file, now), w.objects);
      }
    case RemovesObject(req, h) => RemovalBackedExactly(w.db, w.objects, h);
    case CompleteRejects(req) => RemovalBackedExactly(w.db, w.objects, w.requests[req].h);
    case ClientPuts(h, sizeBytes) => PutBackedExactly(w.db, w.objects, h, sizeBytes);
    case _ =>
  }

  /** Every step of a run is safe in that sense. */
  ghost predicate AllSafe(events: seq<Event>) {
    events == [] ||
    (AllSafe(events[..|events| - 1])
     && (var w, e := Run(START, events[..|events| - 1]), events[|events| - 1]; Enabled(w, e) ==> BucketSafe(w, e)))
  }

  ghost predicate BackedAfter(events: seq<Event>) {
    Backed(Run(START, events).db, Run(START, events).objects)
  }

  ghost predicate BackedThroughout(events: seq<Event>) {
    forall k | 0 <= k <= |events| :: BackedAfter(events[..k])
  }

  lemma ThroughoutSnoc(events: seq<Event>)
    requires events != []
    ensures BackedThroughout(events) <==> BackedThroughout(events[..|events| - 1]) && BackedAfter(events)
  {
    hide BackedAfter;
    var n := |events| - 1;
    assert forall k | 0 <= k <= n :: events[..n][..k] == events[..k];
    assert events[..|events|] == events;
  }

  /** A run keeps every stored chunk backed all the way exactly when each of its steps makes its check. */
  lemma {:induction false} RunsBackedExactlyWhenSafe(events: seq<Event>)
    ensures BackedThroughout(events) <==> AllSafe(events)
  {
    if events == [] {
      assert events[..0] == [] && Backed(START.db, START.objects);
    } else {
      var before, e := events[..|events| - 1], events[|events| - 1];
      RunsBackedExactlyWhenSafe(before);
      ThroughoutSnoc(events);
      RunsStayCounted(before);
      var w := Run(START, before);
      assert Run(START, events) == Step(w, e);
      assert BackedThroughout(before) ==> BackedAfter(before) by {
        assert before[..|before|] == before;
      }
      hide Run, Backed, BucketSafe, Counted, BackedThroughout;
      if Enabled(w, e) && Backed(w.db, w.objects) {
        BackedExactlyWhenSafe(w, e);
      }
    }
  }

  lemma BackedByRows(t: Tables, t': Tables, objects: map<Hash, nat>)
    requires t.chunks == t'.chunks
    ensures Backed(t, objects) <==> Backed(t', objects)
  {
  }

  lemma RemovalBackedExactly(t: Tables, objects: map<Hash, nat>, h: Hash)
    requires Backed(t, objects)
    ensures Backed(t, objects - {h}) <==> !IsStored(t, h)
  {
  }

  lemma PutBackedExactly(t: Tables, objects: map<Hash, nat>, h: Hash, sizeBytes: nat)
    requires Backed(t, objects)
    ensures Backed(t, objects[h := sizeBytes]) <==> (IsStored(t, h) ==> sizeBytes == t.chunks[h].sizeBytes)
  {
  }

  lemma CreateBacked(t: Tables, objects: map<Hash, nat>, path: Path, m: Manifest, newId: FileId)
    requires Linked(t) && ExactCounts(t) && Backed(t, objects) && newId !in t.files
    ensures Backed(Create(t, path, m, newId).0, objects)
  {
    var (t', out) := Create(t, path, m, newId);
    if out.Recorded? {
      CreateMoves(t, path, m, newId);
      RowsGoBacked(t, t', m.chunks, out.orphans, objects);
    }
  }

  lemma DeleteBacked(t: Tables, objects: map<Hash, nat>, file: FileId)
    requires Linked(t) && ExactCounts(t) && Backed(t, objects)
    ensures Backed(Delete(t, file).0, objects)
  {
    var (t', orphans) := Delete(t, file);
    if file in t.files {
      DeleteMoves(t, file);
      RowsGoBacked(t, t', [], orphans.value, objects);
    }
  }

  lemma RowsGoBacked(t: Tables, t': Tables, refs: seq<ChunkRef>, orphans: set<Hash>, objects: map<Hash, nat>)
    requires AllMoved(t, t', refs, orphans) && Backed(t, objects)
    ensures Backed(t', objects)
  {
    forall h | h in t'.chunks && t'.chunks[h].storedAt.Some?
      ensures h in objects && objects[h] == t'.chunks[h].sizeBytes
    {
      assert RowStep(t, t', refs, orphans, h);
    }
  }

  // ------------------------------------------------------------------
  // Overlapping requests can leave the bucket behind
  // ------------------------------------------------------------------

  /**
   * Request 1 records a one-byte file and its byte is uploaded; request 2, completing it, sees the object;
   * request 3 deletes the file and its object; request 4 records the same content again; then request 2
   * marks what its HEADs confirmed.
   */
  function StaleRun(h: Hash, f: FileId, g: FileId, path: Path, now: Time): seq<Event> {
    var m := Manifest(h, 1, [ChunkRef(h, 0, 1)]);
    [ CreateCommits(1, path, m, f), ClientPuts(h, 1),
      CompleteFinds(2, f), CompleteLists(2), CompleteReads(2), CompleteHeads(2, h),
      DeleteCommits(3, f), Rechecks(3), RemovesObject(3, h),
      CreateCommits(4, path, m, g), CompleteConfirms(2, now) ]
  }

  lemma RunSnoc(w: World, events: seq<Event>, n: nat)
    requires n < |events|
    ensures Run(w, events[..n + 1]) == Step(Run(w, events[..n]), events[n])
  {
    assert events[..n + 1][..n] == events[..n];
  }

  lemma OneChunk(h: Hash)
    ensures Hashes([ChunkRef(h, 0, 1)]) == {h}
    ensures SumLengths(Lacking(Distinct([ChunkRef(h, 0, 1)]), {})) == 1
    ensures DeclaredLength([ChunkRef(h, 0, 1)], h) == 1
  {
    var r := ChunkRef(h, 0, 1);
    Snoc([], r, {});
    assert [] + [r] == [r];
    assert [r][..0] == [];
  }

  /** Recording that file in tables that hold nothing. */
  lemma CreateOneByte(h: Hash, id: FileId, path: Path)
    ensures var m := Manifest(h, 1, [ChunkRef(h, 0, 1)]);
            var (t, out) := Create(EMPTY_TABLES, path, m, id);
            && t == Tables(map[h := ChunkRow(1, 1, None)], map[id := FileRow(path, 1, h, None)], map[id := m.chunks])
            && out.Recorded? && out.orphans == {}
  {
    var m := Manifest(h, 1, [ChunkRef(h, 0, 1)]);
    OneChunk(h);
    assert LiveSizes(EMPTY_TABLES.chunks) == map[];
    assert EMPTY_TABLES.chunks.Keys == {};
    assert Incoming(EMPTY_TABLES, m) == 1 && UsedBytes(EMPTY_TABLES) == 0;
    var attached := Attached(EMPTY_TABLES.chunks, m.chunks);
    assert attached == map[h := ChunkRow(1, 1, None)];
    assert Hashes([]) == {} && Orphans(attached, {}) == {} && Released(attached, {}) == attached;
  }

  lemma DeleteOneByte(h: Hash, id: FileId, path: Path)
    ensures var refs := [ChunkRef(h, 0, 1)];
            var t := Tables(map[h := ChunkRow(1, 1, None)], map[id := FileRow(path, 1, h, None)], map[id := refs]);
            Delete(t, id) == (EMPTY_TABLES, Some({h}))
  {
    OneChunk(h);
    var chunks := map[h := ChunkRow(1, 1, None)];
    assert Decremented(chunks, {h}) == map[h := ChunkRow(1, 0, None)];
    assert Orphans(chunks, {h}) == {h};
    assert Released(chunks, {h}) == map[];
  }

  /** The world after each step of that run. */
  ghost function StaleWorld(n: nat, h: Hash, f: FileId, g: FileId, path: Path, now: Time): World {
    var refs, rows := [ChunkRef(h, 0, 1)], map[h := ChunkRow(1, 1, None)];
    var t := Tables(rows, map[f := FileRow(path, 1, h, None)], map[f := refs]);
    var u := Tables(rows, map[g := FileRow(path, 1, h, None)], map[g := refs]);
    var headed := Heading(f, rows, {}, {h}, {});
    match n
    case 0 => START
    case 1 => World(t, map[], map[1 := Committed({})])
    case 2 => World(t, map[h := 1], map[1 := Committed({})])
    case 3 => World(t, map[h := 1], map[1 := Committed({}), 2 := Found(f)])
    case 4 => World(t, map[h := 1], map[1 := Committed({}), 2 := Listed(f, {h})])
    case 5 => World(t, map[h := 1], map[1 := Committed({}), 2 := Heading(f, rows, {h}, {}, {})])
    case 6 => World(t, map[h := 1], map[1 := Committed({}), 2 := headed])
    case 7 => World(EMPTY_TABLES, map[h := 1], map[1 := Committed({}), 2 := headed, 3 := Committed({h})])
    case 8 => World(EMPTY_TABLES, map[h := 1], map[1 := Committed({}), 2 := headed, 3 := Removing({h})])
    case 9 => World(EMPTY_TABLES, map[], map[1 := Committed({}), 2 := headed, 3 := Removing({})])
    case 10 => World(u, map[], map[1 := Committed({}), 2 := headed, 3 := Removing({}), 4 := Committed({})])
    case _ => World(u.(chunks := map[h := ChunkRow(1, 1, Some(now))]), map[],
                    map[1 := Committed({}), 2 := Confirmed(f), 3 := Removing({}), 4 := Committed({})])
  }

  lemma StaleCommits(n: nat, h: Hash, f: FileId, g: FileId, path: Path, now: Time)
    requires (n == 0 || n == 6 || n == 9) && f != g
    ensures Step(StaleWorld(n, h, f, g, path, now), StaleRun(h, f, g, path, now)[n])
         == StaleWorld(n + 1, h, f, g, path, now)
  {
    CreateOneByte(h, f, path);
    CreateOneByte(h, g, path);
    DeleteOneByte(h, f, path);
    hide Create, Delete, Complete, Hashes;
    var w, w' := StaleWorld(n, h, f, g, path, now), StaleWorld(n + 1, h, f, g, path, now);
    var e := StaleRun(h, f, g, path, now)[n];
    assert Enabled(w, e);
    assert Step(w, e).db == w'.db;
    assert Step(w, e).requests == w'.requests;
  }

  lemma StaleReads(n: nat, h: Hash, f: FileId, g: FileId, path: Path, now: Time)
    requires (n == 2 || n == 3 || n == 4) && f != g
    ensures Step(StaleWorld(n, h, f, g, path, now), StaleRun(h, f, g, path, now)[n])
         == StaleWorld(n + 1, h, f, g, path, now)
  {
    OneChunk(h);
    var rows := map[h := ChunkRow(1, 1, None)];
    assert OwnedChunks(rows, {h}) == rows;
    assert Hashes(RefsOf(map[f := [ChunkRef(h, 0, 1)]], f)) == {h};
    var w, w' := StaleWorld(n, h, f, g, path, now), StaleWorld(n + 1, h, f, g, path, now);
    var e := StaleRun(h, f, g, path, now)[n];
    assert Enabled(w, e);
    assert n == 4 ==> rows.Keys == {h};
    assert forall r | r in w'.requests :: r in Step(w, e).requests && Step(w, e).requests[r] == w'.requests[r];
    assert Step(w, e).requests == w'.requests;
  }

  lemma StaleObjects(n: nat, h: Hash, f: FileId, g: FileId, path: Path, now: Time)
    requires (n == 1 || n == 5 || n == 7 || n == 8) && f != g
    ensures Step(StaleWorld(n, h, f, g, path, now), StaleRun(h, f, g, path, now)[n])
         == StaleWorld(n + 1, h, f, g, path, now)
  {
    hide Create, Delete, Complete, Hashes, OwnedChunks, RefsOf;
    var w, w' := StaleWorld(n, h, f, g, path, now), StaleWorld(n + 1, h, f, g, path, now);
    var e := StaleRun(h, f, g, path, now)[n];
    assert {h} - {h} == {} && {} + {h} == {h} && {h} - EMPTY_TABLES.chunks.Keys == {h};
    assert Enabled(w, e);
    assert Step(w, e).objects == w'.objects;
    assert Step(w, e).requests == w'.requests;
  }

  lemma StaleMark(n: nat, h: Hash, f: FileId, g: FileId, path: Path, now: Time)
    requires n == 10 && f != g
    ensures Step(StaleWorld(n, h, f, g, path, now), StaleRun(h, f, g, path, now)[n])
         == StaleWorld(n + 1, h, f, g, path, now)
  {
    assert Marked(map[h := ChunkRow(1, 1, None)], {h}, now) == map[h := ChunkRow(1, 1, Some(now))];
  }

  lemma {:induction false} StalePrefix(n: nat, h: Hash, f: FileId, g: FileId, path: Path, now: Time)
    requires n <= 11 && f != g
    ensures Run(START, StaleRun(h, f, g, path, now)[..n]) == StaleWorld(n, h, f, g, path, now)
  {
    if n > 0 {
      StalePrefix(n - 1, h, f, g, path, now);
      RunSnoc(START, StaleRun(h, f, g, path, now), n - 1);
      match n - 1
      case 0 | 6 | 9 => StaleCommits(n - 1, h, f, g, path, now);
      case 2 | 3 | 4 => StaleReads(n - 1, h, f, g, path, now);
      case 10 => StaleMark(n - 1, h, f, g, path, now);
      case _ => StaleObjects(n - 1, h, f, g, path, now);
    }
  }

  /** Backing every stored chunk is therefore a property of requests served whole, not of every run. */
  lemma StaleHeadsMarkLostChunk(h: Hash, f: FileId, g: FileId, path: Path, now: Time)
    requires f != g
    ensures var w := Run(START, StaleRun(h, f, g, path, now));
            IsStored(w.db, h) && h !in w.objects && !Backed(w.db, w.objects)
  {
    var events := StaleRun(h, f, g, path, now);
    StalePrefix(11, h, f, g, path, now);
    assert events[..11] == events;
  }

  // ------------------------------------------------------------------
  // A replace inside complete-upload's transaction
  // ------------------------------------------------------------------

  /** A file of one byte that is stored, and whose completion is under way. */
  ghost function OneStored(h: Hash, f: FileId, path: Path, at: Time): Tables {
    Tables(map[h := ChunkRow(1, 1, Some(at))], map[f := FileRow(path, 1, h, None)], map[f := [ChunkRef(h, 0, 1)]])
  }

  lemma SoleNamer(rows: ManifestRows, f: FileId, refs: seq<ChunkRef>, h: Hash, g: Hash)
    requires rows == map[f := refs] && Hashes(refs) == {h}
    ensures Namers(rows, g) == if g == h then {f} else {}
  {
    hide Hashes;
    assert forall x :: x in Namers(rows, g) <==> x == f && g == h;
  }

  lemma OneNamed(t: Tables, h: Hash, f: FileId)
    requires t.fileChunks == map[f := [ChunkRef(h, 0, 1)]]
    ensures RefsOf(t.fileChunks, f) == [ChunkRef(h, 0, 1)] && Hashes([ChunkRef(h, 0, 1)]) == {h}
    ensures forall g :: Namers(t.fileChunks, g) == if g == h then {f} else {}
  {
    hide Hashes, Namers;
    OneChunk(h);
    forall g
      ensures Namers(t.fileChunks, g) == if g == h then {f} else {}
    {
      SoleNamer(t.fileChunks, f, [ChunkRef(h, 0, 1)], h, g);
    }
  }

  lemma OneStoredIsSound(h: Hash, f: FileId, path: Path, at: Time)
    ensures Sound(OneStored(h, f, path, at)) && UsedBytes(OneStored(h, f, path, at)) == 1
  {
    var t := OneStored(h, f, path, at);
    hide Hashes, Namers, RefsOf, Total;
    OneNamed(t, h, f);
    assert LiveSizes(t.chunks) == map[h := 1];
    TotalRemove(map[h := 1], h);
    assert map[h := 1] - {h} == map[];
    NoBytes();
  }

  lemma NoBytes()
    ensures Total(map[]) == 0
  {
  }

  /**
   * Request 1 records a one-byte file and its byte is uploaded; request 2, completing it, finds it stored; request 3
   * replaces its contents; then request 2 marks the file complete.
   */
  function UnlockedRun(h: Hash, g: Hash, f: FileId, newId: FileId, path: Path, now: Time): seq<Event> {
    StaleRun(h, f, newId, path, now)[..6]
    + [ CompleteConfirms(2, now), CompleteChecks(2), CreateCommits(3, path, Manifest(g, 1, [ChunkRef(g, 0, 1)]), newId),
        CompleteFinishes(2, now) ]
  }

  /** Up to its check, in tables that then hold one stored file. */
  lemma UnlockedPrefix(h: Hash, g: Hash, f: FileId, newId: FileId, path: Path, now: Time)
    requires f != newId
    ensures Run(START, UnlockedRun(h, g, f, newId, path, now)[..8])
         == World(OneStored(h, f, path, now), map[h := 1], map[1 := Committed({}), 2 := Checked(f)])
  {
    var events, stale := UnlockedRun(h, g, f, newId, path, now), StaleRun(h, f, newId, path, now);
    assert events[..6] == stale[..6];
    StalePrefix(6, h, f, newId, path, now);
    RunSnoc(START, events, 6);
    RunSnoc(START, events, 7);
    ConfirmsOne(h, f, newId, path, now);
    StoredIsNamed(h, f, path, now);
    hide Step, StaleWorld, OneStored, Run;
    ChecksOne(Run(START, events[..7]), f);
  }

  lemma ConfirmsOne(h: Hash, f: FileId, newId: FileId, path: Path, now: Time)
    requires f != newId
    ensures Step(StaleWorld(6, h, f, newId, path, now), CompleteConfirms(2, now))
         == World(OneStored(h, f, path, now), map[h := 1], map[1 := Committed({}), 2 := Confirmed(f)])
  {
    hide Create, Delete, Finished, Unstored;
    var w, e := StaleWorld(6, h, f, newId, path, now), CompleteConfirms(2, now);
    assert Marked(map[h := ChunkRow(1, 1, None)], {h}, now) == map[h := ChunkRow(1, 1, Some(now))];
    assert Step(w, e).requests == map[1 := Committed({}), 2 := Confirmed(f)];
  }

  lemma ChecksOne(w: World, f: FileId)
    requires w.requests == map[1 := Committed({}), 2 := Confirmed(f)]
    requires f in w.db.files && Unstored(w.db, f) == {}
    ensures Step(w, CompleteChecks(2)) == w.(requests := map[1 := Committed({}), 2 := Checked(f)])
  {
    hide Create, Delete, Finished, Unstored;
    assert Step(w, CompleteChecks(2)).requests == map[1 := Committed({}), 2 := Checked(f)];
  }

  lemma StoredIsNamed(h: Hash, f: FileId, path: Path, at: Time)
    ensures var t := OneStored(h, f, path, at); t.files.Keys == {f} && Unstored(t, f) == {}
  {
    hide Hashes, RefsOf;
    OneNamed(OneStored(h, f, path, at), h, f);
  }

  /** A replace of a file between the check of its complete-upload and the marking. */
  lemma ReplaceThenFinish(w: World, f: FileId, path: Path, m: Manifest, newId: FileId, now: Time)
    requires w.requests == map[1 := Committed({}), 2 := Checked(f)] && newId !in w.db.files && Counted(w.db)
    requires var out := Create(w.db, path, m, newId).1; out.Recorded? && out.file == f
    ensures var (replaced, t') := (Step(w, CreateCommits(3, path, m, newId)), Create(w.db, path, m, newId).0);
            && replaced.db == t' && f in t'.files
            && Step(replaced, CompleteFinishes(2, now)).db == Finished(t', f, now)
  {
    CreateFiles(w.db, path, m, newId);
    hide Create, Finished, Counted;
    var e := CreateCommits(3, path, m, newId);
    assert Enabled(w, e);
    assert 2 in Step(w, e).requests && Step(w, e).requests[2] == Checked(f);
  }

  /** In that run the file ends up complete although its chunk is not stored. */
  lemma UnlockedCompleteCanLie(h: Hash, g: Hash, f: FileId, newId: FileId, path: Path, now: Time)
    requires h != g && f != newId
    ensures var events := UnlockedRun(h, g, f, newId, path, now);
            Sound(Run(START, events[..9]).db) && !CompleteIsStored(Run(START, events).db)
  {
    var events := UnlockedRun(h, g, f, newId, path, now);
    UnlockedPrefix(h, g, f, newId, path, now);
    assert events[..10] == events;
    assert events[8] == CreateCommits(3, path, Manifest(g, 1, [ChunkRef(g, 0, 1)]), newId);
    assert events[9] == CompleteFinishes(2, now);
    hide *;
    RunSnoc(START, events, 8);
    RunSnoc(START, events, 9);
    var t, m := OneStored(h, f, path, now), Manifest(g, 1, [ChunkRef(g, 0, 1)]);
    StoredIsNamed(h, f, path, now);
    OneStoredIsSound(h, f, path, now);
    SoundIsLinked(t);
    ReplacedByUnstored(h, g, f, newId, path, now);
    ReplaceThenFinish(Run(START, events[..8]), f, path, m, newId, now);
    CreateKeepsSound(t, path, m, newId);
    ReplaceBeforeFinish(t, path, m, newId, now);
  }

  lemma ReplacedByUnstored(h: Hash, g: Hash, f: FileId, newId: FileId, path: Path, at: Time)
    requires h != g && f != newId
    ensures var t := OneStored(h, f, path, at);
            var out := Create(t, path, Manifest(g, 1, [ChunkRef(g, 0, 1)]), newId).1;
            out.Recorded? && out.file == f && out.missing != []
  {
    var t, m := OneStored(h, f, path, at), Manifest(g, 1, [ChunkRef(g, 0, 1)]);
    OneStoredIsSound(h, f, path, at);
    OneNew(g, t.chunks.Keys);
    assert FileAt(t.files, path) == Some(f);
    hide Sound, Namers, Distinct, Lacking, Total, Released, Attached, Orphans, Hashes;
    var (t', out) := Create(t, path, m, newId);
    assert out.Recorded? && out.file == f;
    SoundIsLinked(t);
    CreateRow(t, path, m, newId, g);
    OneNew(g, StoredHashes(t'.chunks));
  }

  lemma OneNew(g: Hash, held: set<Hash>)
    requires g !in held
    ensures SumLengths(Lacking(Distinct([ChunkRef(g, 0, 1)]), held)) == 1
    ensures Lacking(Distinct([ChunkRef(g, 0, 1)]), held) != []
  {
    var r := ChunkRef(g, 0, 1);
    Snoc([], r, held);
    assert [] + [r] == [r] && [r][..0] == [];
  }
}
