/**
 * Changes to the Files tree over the vfs channel. Each request looks first and changes after, with the
 * mutation lock held from the look to the change; any number of requests are in flight at once.
 */
module VfsMutations {
  import opened Wrappers
  import opened Bytes
  import Base64

  type Name(==, !new)

  /** A resolved place in the tree; the empty path is the root. */
  type Path = seq<Name>

  datatype Node = File(bytes: seq<byte>) | Directory

  type Tree = map<Path, Node>

  const VFS_MAX_WRITE_BYTES: nat := 8 * 1024 * 1024

  datatype Code =
    | TooLarge | InvalidRequest | Conflict | NotFound | NotEmpty | AlreadyExists | IsADirectory | PathRefused | IoFailed

  // ------------------------------------------------------------------
  // Payloads
  // ------------------------------------------------------------------

  /** The two size checks around decoding, as `write` and `append` make them. */
  function Payload(text: Base64.Text): Result<seq<byte>, Code> {
    if |text| / 4 * 3 > VFS_MAX_WRITE_BYTES then Err(TooLarge)
    else
      match Base64.Decoded(text)
      case Err(_) => Err(InvalidRequest)
      case Ok(bytes) => if |bytes| > VFS_MAX_WRITE_BYTES then Err(TooLarge) else Ok(bytes)
  }

  /**
   * What fits. The first check counts padding as payload, so of the 8388608 bytes the limit names the last
   * two are out of reach: a payload is accepted exactly up to 8388606 bytes.
   */
  lemma PayloadAccepted(data: seq<byte>)
    ensures Payload(Base64.Encoded(data)) == Ok(data) <==> |data| <= VFS_MAX_WRITE_BYTES - 2
    ensures Payload(Base64.Encoded(data)) == Err(TooLarge) <==> |data| > VFS_MAX_WRITE_BYTES - 2
  {
    hide Base64.Encoded, Base64.Decoded;
    Base64.EncodedDecodes(data);
    Base64.EncodedLength(data);
  }

  /** The second check is never the one that refuses: no text of any kind decodes to more than that. */
  lemma PayloadIsBounded(text: Base64.Text)
    ensures Payload(text).Ok? ==> |Payload(text).value| <= VFS_MAX_WRITE_BYTES - 2
    ensures Payload(text) == Err(TooLarge) <==> |text| / 4 * 3 > VFS_MAX_WRITE_BYTES
  {
    hide Base64.Decoded;
    if Base64.Decoded(text).Ok? {
      Base64.DecodedIsShort(text);
    }
  }

  // ------------------------------------------------------------------
  // Requests
  // ------------------------------------------------------------------

  datatype Request =
    | Write(path: Path, data: seq<byte>, expectedSize: Option<nat>)
    | Append(path: Path, data: seq<byte>, expectedSize: Option<nat>)
    | Replace(path: Path, expected: seq<byte>, data: seq<byte>)
    | Delete(path: Path, recursive: bool)
    | Mkdir(path: Path)
    | Rename(from: Path, to: Path)

  datatype Response = Wrote(size: nat) | Deleted | Created | Renamed | Refused(code: Code)

  /**
   * How the system calls of the change go. When one fails: how many bytes had been written, or directories made;
   * the name of a temporary file that was created and could not be removed again; and which paths a recursive
   * removal had taken.
   */
  datatype Io = Works | Fails(got: nat, litter: Option<Name>, removed: set<Path>)

  function Parent(p: Path): Path
    requires p != []
  {
    p[..|p| - 1]
  }

  predicate IsDir(t: Tree, p: Path) {
    p in t && t[p].Directory?
  }

  predicate IsFile(t: Tree, p: Path) {
    p in t && t[p].File?
  }

  /** Some proper ancestor is a file, so that the path cannot even be looked up. */
  ghost predicate Blocked(t: Tree, p: Path) {
    exists k | 0 <= k < |p| :: IsFile(t, p[..k])
  }

  /** What looking up an absent path reports. */
  ghost function Absent(t: Tree, p: Path): Code {
    if Blocked(t, p) then IoFailed else NotFound
  }

  function SizeAt(t: Tree, p: Path): nat {
    if IsFile(t, p) then |t[p].bytes| else 0
  }

  /** The checks of a request, in order: the refusal, or none. They read the tree and change nothing. */
  ghost function Judge(t: Tree, r: Request): Option<Code> {
    match r
    case Write(p, _, expected) =>
      if expected.Some? && p !in t then Some(if Blocked(t, p) then IoFailed else Conflict)
      else if expected.Some? && !(IsFile(t, p) && SizeAt(t, p) == expected.value) then Some(Conflict)
      else if p == [] then Some(IoFailed)
      else if !IsDir(t, Parent(p)) then Some(NotFound)
      else None
    case Append(p, _, expected) =>
      if p !in t then Some(Absent(t, p))
      else if IsDir(t, p) then Some(IsADirectory)
      else if expected.Some? && SizeAt(t, p) != expected.value then Some(Conflict)
      else None
    case Replace(p, expected, _) =>
      if p !in t && Blocked(t, p) then Some(IoFailed)
      else if !IsFile(t, p) || SizeAt(t, p) != |expected| || t[p].bytes != expected then Some(Conflict)
      else None
    case Delete(p, recursive) =>
      if p == [] then Some(PathRefused)
      else if p !in t then Some(Absent(t, p))
      else if IsDir(t, p) && !recursive && exists q :: q in t && p < q then Some(NotEmpty)
      else None
    case Mkdir(p) => if Blocked(t, p) || IsFile(t, p) then Some(IoFailed) else None
    case Rename(from, to) =>
      if from == [] || to == [] then Some(PathRefused)
      else if from !in t then Some(NotFound)
      else if to in t then Some(AlreadyExists)
      else if !IsDir(t, Parent(to)) then Some(NotFound)
      else if from <= to then Some(IoFailed)
      else None
  }

  // ------------------------------------------------------------------
  // Changes
  // ------------------------------------------------------------------

  ghost function Without(t: Tree, p: Path): Tree {
    map q | q in t && !(p <= q) :: t[q]
  }

  ghost function Made(t: Tree, p: Path): Tree {
    var ancestors := set k | 0 <= k <= |p| :: p[..k];
    map q | q in t.Keys + ancestors :: if q in t then t[q] else Directory
  }

  /** Where a path is after a rename. */
  function Relocated(from: Path, to: Path, q: Path): Path {
    if from <= q then to + q[|from|..] else q
  }

  ghost function Moved(t: Tree, from: Path, to: Path): Tree {
    map q | q in set p | p in t :: Relocated(from, to, p) :: t[Source(t, from, to, q)]
  }

  ghost function Source(t: Tree, from: Path, to: Path, q: Path): (p: Path)
    requires exists p :: p in t && Relocated(from, to, p) == q
    ensures p in t && Relocated(from, to, p) == q
  {
    var p :| p in t && Relocated(from, to, p) == q;
    p
  }

  function Capped(n: nat, max: nat): nat {
    if n < max then n else max
  }

  /** Beside the destination of a write, or of a replace. */
  function Beside(p: Path, name: Name): Path
    requires p != []
  {
    Parent(p) + [name]
  }

  /** A temporary file that could not be removed stays beside the destination, with as much as was written. */
  function Littered(t: Tree, p: Path, data: seq<byte>, io: Io): Tree {
    if Litters(t, p, io) then t[Beside(p, io.litter.value) := File(data[..Capped(io.got, |data|)])] else t
  }

  /** Names of temporary files are made to be new. */
  predicate Litters(t: Tree, p: Path, io: Io) {
    io.Fails? && io.litter.Some? && p != [] && Beside(p, io.litter.value) !in t && Beside(p, io.litter.value) != p
  }

  /** A removal takes what is below a path before the path itself, and fails before it gets to the top. */
  ghost predicate Taken(p: Path, removed: set<Path>, q: Path) {
    exists r :: r in removed && p < r <= q
  }

  ghost function PartlyRemoved(t: Tree, p: Path, removed: set<Path>): Tree {
    map q | q in t && !Taken(p, removed, q) :: t[q]
  }

  /** Directories are made from the top, and the last of them is not reached. */
  function Reached(p: Path, made: nat): Path
    requires p != []
  {
    p[..Capped(made, |p| - 1)]
  }

  /** What a change leaves behind whose calls fail. A rename, and the removal of one entry, are single calls. */
  ghost function Interrupted(t: Tree, r: Request, io: Io): Tree
    requires io.Fails?
  {
    match r
    case Write(p, data, _) => Littered(t, p, data, io)
    case Append(p, data, _) =>
      t[p := File((if IsFile(t, p) then t[p].bytes else []) + data[..Capped(io.got, |data|)])]
    case Replace(p, _, data) => Littered(t, p, data, io)
    case Delete(p, recursive) => if recursive && IsDir(t, p) then PartlyRemoved(t, p, io.removed) else t
    case Mkdir(p) => if p == [] then t else Made(t, Reached(p, io.got))
    case Rename(_, _) => t
  }

  /** The change itself, with what the checks found out: no refusal, and the size the file had. */
  ghost function Act(t: Tree, r: Request, size: nat, io: Io): (Tree, Response) {
    if io.Fails? then (Interrupted(t, r, io), Refused(IoFailed))
    else
      match r
      case Write(p, data, _) =>
        // A directory is never renamed over; the temporary file goes again.
        if IsDir(t, p) then (t, Refused(IoFailed)) else (t[p := File(data)], Wrote(|data|))
      case Append(p, data, _) =>
        (t[p := File((if IsFile(t, p) then t[p].bytes else []) + data)], Wrote(size + |data|))
      case Replace(p, _, data) => (t[p := File(data)], Wrote(|data|))
      case Delete(p, _) => (Without(t, p), Deleted)
      case Mkdir(p) => (Made(t, p), Created)
      case Rename(from, to) => (Moved(t, from, to), Renamed)
  }

  function Target(r: Request): Path {
    if r.Rename? then r.from else r.path
  }

  /** The whole request, as if nothing else were going on. */
  ghost function Perform(t: Tree, r: Request, io: Io): (Tree, Response) {
    match Judge(t, r)
    case Some(code) => (t, Refused(code))
    case None => Act(t, r, SizeAt(t, Target(r)), io)
  }

  // ------------------------------------------------------------------
  // Requests in flight
  // ------------------------------------------------------------------

  datatype Stage =
    | Waiting(request: Request)
    | Holding(request: Request)
    | Checked(request: Request, verdict: Option<Code>, size: nat)
    | Answered(response: Response)

  /** A request that has been answered, how its calls went, and the answer. */
  datatype Commit = Commit(request: Request, io: Io, response: Response)

  datatype World = World(tree: Tree, holder: Option<nat>, tasks: seq<Stage>, log: seq<Commit>)

  datatype Event = Arrives(request: Request) | Locks(task: nat) | Checks(task: nat) | Acts(task: nat, io: Io)

  predicate Enabled(w: World, e: Event) {
    match e
    case Arrives(_) => true
    case Locks(k) => k < |w.tasks| && w.tasks[k].Waiting? && w.holder.None?
    case Checks(k) => k < |w.tasks| && w.tasks[k].Holding?
    case Acts(k, _) => k < |w.tasks| && w.tasks[k].Checked?
  }

  ghost function Step(w: World, e: Event): World {
    if !Enabled(w, e) then w
    else
      match e
      case Arrives(request) => w.(tasks := w.tasks + [Waiting(request)])
      case Locks(k) => w.(holder := Some(k), tasks := w.tasks[k := Holding(w.tasks[k].request)])
      case Checks(k) =>
        var r := w.tasks[k].request;
        w.(tasks := w.tasks[k := Checked(r, Judge(w.tree, r), SizeAt(w.tree, Target(r)))])
      case Acts(k, io) =>
        var s := w.tasks[k];
        var (tree, response) := if s.verdict.Some? then (w.tree, Refused(s.verdict.value))
                                else Act(w.tree, s.request, s.size, io);
        World(tree, None, w.tasks[k := Answered(response)], w.log + [Commit(s.request, io, response)])
  }

  ghost function Run(t: Tree, events: seq<Event>): World {
    if events == [] then World(t, None, [], []) else Step(Run(t, events[..|events| - 1]), events[|events| - 1])
  }

  /** The tree after performing some requests one by one. */
  ghost function After(t: Tree, log: seq<Commit>): Tree {
    if log == [] then t
    else Perform(After(t, log[..|log| - 1]), log[|log| - 1].request, log[|log| - 1].io).0
  }

  /** Every answer is the one the request would have got on its own at that point. */
  ghost predicate Sequential(t: Tree, log: seq<Commit>) {
    log == [] ||
    (Sequential(t, log[..|log| - 1])
     && log[|log| - 1].response == Perform(After(t, log[..|log| - 1]), log[|log| - 1].request, log[|log| - 1].io).1)
  }

  ghost predicate Inv(t: Tree, w: World) {
    && w.tree == After(t, w.log) && Sequential(t, w.log)
    && (forall k | 0 <= k < |w.tasks| && (w.tasks[k].Holding? || w.tasks[k].Checked?) :: w.holder == Some(k))
    && (forall k | 0 <= k < |w.tasks| && w.tasks[k].Checked? ::
          && w.tasks[k].verdict == Judge(w.tree, w.tasks[k].request)
          && w.tasks[k].size == SizeAt(w.tree, Target(w.tasks[k].request)))
  }

  lemma LogSnoc(t: Tree, log: seq<Commit>, c: Commit)
    ensures After(t, log + [c]) == Perform(After(t, log), c.request, c.io).0
    ensures Sequential(t, log + [c])
       <==> Sequential(t, log) && c.response == Perform(After(t, log), c.request, c.io).1
  {
    hide Perform;
    assert (log + [c])[..|log|] == log;
  }

  /** Acting on a verdict that still holds is performing the request. */
  lemma ActIsPerform(w: World, k: nat, io: Io)
    requires Enabled(w, Acts(k, io)) && w.tasks[k].verdict == Judge(w.tree, w.tasks[k].request)
    requires w.tasks[k].size == SizeAt(w.tree, Target(w.tasks[k].request))
    ensures var (tree, response) := Perform(w.tree, w.tasks[k].request, io);
            Step(w, Acts(k, io)) == World(tree, None, w.tasks[k := Answered(response)],
                                          w.log + [Commit(w.tasks[k].request, io, response)])
  {
    hide Judge, Act;
  }

  lemma ActsKeeps(t: Tree, w: World, k: nat, io: Io)
    requires Inv(t, w) && Enabled(w, Acts(k, io))
    ensures Inv(t, Step(w, Acts(k, io)))
  {
    hide Judge, Act, Perform, Step, After, Sequential, SizeAt;
    ActIsPerform(w, k, io);
    LogSnoc(t, w.log, Commit(w.tasks[k].request, io, Perform(w.tree, w.tasks[k].request, io).1));
  }

  lemma StepKeeps(t: Tree, w: World, e: Event)
    requires Inv(t, w)
    ensures Inv(t, Step(w, e))
  {
    hide Judge, Act, Perform, After, Sequential, SizeAt;
    if Enabled(w, e) && e.Acts? {
      ActsKeeps(t, w, e.task, e.io);
    }
  }

  /**
   * Whatever the interleaving, the requests answered so far have had the effect and the answers they would
   * have had one at a time, in the order they were answered.
   */
  lemma {:induction false} RequestsLinearise(t: Tree, events: seq<Event>)
    ensures var w := Run(t, events);
            w.tree == After(t, w.log) && Sequential(t, w.log) && Inv(t, w)
  {
    if events != [] {
      RequestsLinearise(t, events[..|events| - 1]);
      StepKeeps(t, Run(t, events[..|events| - 1]), events[|events| - 1]);
    }
  }

  // ------------------------------------------------------------------
  // What one request does and leaves alone
  // ------------------------------------------------------------------

  /** The calls of a change failed after they had had some effect. */
  ghost predicate HalfDone(t: Tree, r: Request, io: Io) {
    && Judge(t, r).None? && io.Fails?
    && match r
       case Write(p, _, _) => Litters(t, p, io)
       case Append(_, data, _) => Capped(io.got, |data|) > 0
       case Replace(p, _, _) => Litters(t, p, io)
       case Delete(p, recursive) => recursive && IsDir(t, p) && exists q :: q in t && Taken(p, io.removed, q)
       case Mkdir(p) => p != [] && exists k | 0 <= k <= |Reached(p, io.got)| :: Reached(p, io.got)[..k] !in t
       case Rename(_, _) => false
  }

  lemma AppendingNothing(t: Tree, p: Path, data: seq<byte>)
    requires IsFile(t, p)
    ensures t[p := File(t[p].bytes + data)] == t <==> data == []
  {
    var t' := t[p := File(t[p].bytes + data)];
    assert t'[p] == File(t[p].bytes + data) && t[p] == File(t[p].bytes);
    assert |t[p].bytes + data| == |t[p].bytes| + |data|;
    if data == [] {
      assert t[p].bytes + data == t[p].bytes;
      assert t' == t;
    }
  }

  lemma LitteringNothing(t: Tree, p: Path, data: seq<byte>, io: Io)
    ensures Littered(t, p, data, io) == t <==> !Litters(t, p, io)
  {
    if Litters(t, p, io) {
      assert Beside(p, io.litter.value) in Littered(t, p, data, io);
    }
  }

  lemma RemovingNothing(t: Tree, p: Path, removed: set<Path>)
    ensures PartlyRemoved(t, p, removed) == t <==> !exists q :: q in t && Taken(p, removed, q)
  {
    hide Taken;
    if q :| q in t && Taken(p, removed, q) {
      assert q !in PartlyRemoved(t, p, removed);
    }
  }

  lemma MakingNothing(t: Tree, p: Path)
    ensures Made(t, p) == t <==> forall k | 0 <= k <= |p| :: p[..k] in t
  {
    if k :| 0 <= k <= |p| && p[..k] !in t {
      assert p[..k] in Made(t, p);
    }
  }

  /**
   * A refusal leaves the tree as it was, exactly unless its calls failed half-way: an append that had extended the
   * file by part of its data, a recursive delete that had taken part of the subtree, a mkdir that had made some of
   * the ancestors, a write or replace whose temporary file could not be removed. A conflict is none of these.
   */
  lemma RefusalsChangeNothing(t: Tree, r: Request, io: Io)
    ensures var (t', response) := Perform(t, r, io);
            && (response.Refused? ==> (t' != t <==> HalfDone(t, r, io)))
            && (response == Refused(Conflict) <==> Judge(t, r) == Some(Conflict))
            && (response == Refused(Conflict) ==> t' == t)
            && (HalfDone(t, r, io) ==> response == Refused(IoFailed) && t' == Interrupted(t, r, io))
  {
    hide PartlyRemoved, Made, Moved, Without, Blocked, Taken, Litters, Littered, Reached;
    if Judge(t, r).None? && io.Fails? {
      match r
      case Append(p, data, _) => AppendingNothing(t, p, data[..Capped(io.got, |data|)]);
      case Delete(p, _) => RemovingNothing(t, p, io.removed);
      case Mkdir(p) =>
        if p != [] {
          MakingNothing(t, Reached(p, io.got));
        }
      case Rename(_, _) =>
      case _ => LitteringNothing(t, r.path, r.data, io);
    }
  }

  /**
   * And what a refusal can change at all. Nothing is lost, except below the path of a recursive delete; no file's
   * contents change, except that an append extends its own; and what is added is the temporary file of a write,
   * with a first part of its data, or a directory above the path of a mkdir.
   */
  lemma RefusalsSpare(t: Tree, r: Request, io: Io, q: Path)
    requires Perform(t, r, io).1.Refused?
    ensures var t' := Perform(t, r, io).0;
            && (q in t && q !in t' ==> r.Delete? && r.recursive && r.path < q)
            && (q in t && q in t' && t'[q] != t[q] ==>
                  r.Append? && q == r.path && IsFile(t, q) && IsFile(t', q)
                  && t[q].bytes <= t'[q].bytes <= t[q].bytes + r.data)
            && (q in t' && q !in t ==>
                  || (r.Mkdir? && q < r.path && t'[q] == Directory)
                  || ((r.Write? || r.Replace?) && r.path != [] && q != r.path && q != [] && Parent(q) == Parent(r.path)
                      && t'[q].File? && t'[q].bytes <= r.data))
  {
    hide Moved, Without, Blocked, Littered;
    if Judge(t, r).None? && io.Fails? {
      match r
      case Append(p, data, _) => AppendedPart(t[p].bytes, data, Capped(io.got, |data|));
      case Mkdir(p) =>
        if p != [] {
          ReachedIsAbove(p, io.got);
        }
      case Write(p, data, _) => LitterIsBeside(t, p, data, io);
      case Replace(p, _, data) => LitterIsBeside(t, p, data, io);
      case _ =>
    }
  }

  lemma LitterIsBeside(t: Tree, p: Path, data: seq<byte>, io: Io)
    ensures var t' := Littered(t, p, data, io);
            && (forall q | q in t :: q in t' && t'[q] == t[q])
            && forall q | q in t' && q !in t ::
                 p != [] && q != p && q != [] && Parent(q) == Parent(p) && t'[q].File? && t'[q].bytes <= data
  {
    if Litters(t, p, io) {
      assert Parent(Beside(p, io.litter.value)) == Parent(p);
    }
  }

  lemma AppendedPart(before: seq<byte>, data: seq<byte>, n: nat)
    requires n <= |data|
    ensures before <= before + data[..n] <= before + data
  {
  }

  lemma ReachedIsAbove(p: Path, made: nat)
    requires p != []
    ensures forall k | 0 <= k <= |Reached(p, made)| :: Reached(p, made)[..k] < p
  {
  }

  // Each of these happens.

  /** One byte of two is appended, and the answer is a refusal. */
  lemma AppendCanStopHalfWay(n: Name)
    ensures var t: Tree := map[[] := Directory, [n] := File([1])];
            && WellFormed(t)
            && Perform(t, Append([n], [2, 3], None), Fails(1, None, {}))
               == (map[[] := Directory, [n] := File([1, 2])], Refused(IoFailed))
  {
    var t: Tree, r := map[[] := Directory, [n] := File([1])], Append([n], [2, 3], None);
    assert Parent([n]) == [];
    assert IsFile(t, [n]) && Judge(t, r).None?;
    assert r.data[..1] == [2] && t[[n]].bytes + [2] == [1, 2];
    assert t[[n] := File([1, 2])] == map[[] := Directory, [n] := File([1, 2])];
  }

  /** One of two files in a directory is removed, and the answer is a refusal. */
  lemma DeleteCanStopHalfWay(d: Name, a: Name, b: Name)
    requires a != b
    ensures var t: Tree := map[[] := Directory, [d] := Directory, [d, a] := File([1]), [d, b] := File([2])];
            && WellFormed(t)
            && Perform(t, Delete([d], true), Fails(0, None, {[d, a]})) == (t - {[d, a]}, Refused(IoFailed))
  {
    var t: Tree := map[[] := Directory, [d] := Directory, [d, a] := File([1]), [d, b] := File([2])];
    assert Parent([d]) == [] && Parent([d, a]) == [d] && Parent([d, b]) == [d];
    forall q | q in t
      ensures Taken([d], {[d, a]}, q) <==> q == [d, a]
    {
      assert [d] < [d, a];
      assert [d, a] <= q ==> |q| >= 2 && q[1] == a;
    }
    assert PartlyRemoved(t, [d], {[d, a]}) == t - {[d, a]};
  }

  /** The first of two directories is made, and the answer is a refusal. */
  lemma MkdirCanStopHalfWay(a: Name, b: Name)
    ensures var t: Tree := map[[] := Directory];
            && WellFormed(t)
            && Perform(t, Mkdir([a, b]), Fails(1, None, {}))
               == (map[[] := Directory, [a] := Directory], Refused(IoFailed))
  {
    var t: Tree := map[[] := Directory];
    assert Reached([a, b], 1) == [a];
    assert [a][..0] == [] && [a][..1] == [a];
    assert forall q :: q in Made(t, [a]) <==> q == [] || q == [a];
    assert Made(t, [a]) == map[[] := Directory, [a] := Directory];
  }

  /** The rename of a write fails, and so does the removal of its temporary file. */
  lemma WriteCanLeaveItsTemporary(n: Name, temporary: Name)
    requires n != temporary
    ensures var t: Tree := map[[] := Directory];
            && WellFormed(t)
            && Perform(t, Write([n], [1], None), Fails(1, Some(temporary), {}))
               == (map[[] := Directory, [temporary] := File([1])], Refused(IoFailed))
  {
    var t: Tree, p, io := map[[] := Directory], [n], Fails(1, Some(temporary), {});
    assert Parent(p) == [] && Beside(p, temporary) == [temporary] && [temporary][0] != p[0];
    assert Litters(t, p, io);
    assert [1][..1] == [1];
    assert Littered(t, p, [1], io) == t[[temporary] := File([1])];
    hide Littered, Litters, Beside;
    assert Judge(t, Write(p, [1], None)).None?;
  }

  /**
   * A replace goes through only from exactly the contents it expects, and then to exactly its own; anything else
   * there, or nothing, is a conflict.
   */
  lemma ReplaceIsExact(t: Tree, p: Path, expected: seq<byte>, data: seq<byte>, io: Io)
    requires WellFormed(t)
    ensures var (t', response) := Perform(t, Replace(p, expected, data), io);
            && (response.Wrote? <==> p in t && t[p] == File(expected) && io.Works?)
            && (response.Wrote? ==> response.size == |data| && t' == t[p := File(data)])
            && (response == Refused(Conflict) <==>
                  if p in t then t[p] != File(expected) else forall k | 0 <= k < |p| :: !IsFile(t, p[..k]))
  {
    if p in t {
      ThereIsOpen(t, p);
    }
  }

  lemma ThereIsOpen(t: Tree, p: Path)
    requires WellFormed(t) && p in t
    ensures !Blocked(t, p) && (p != [] ==> IsDir(t, Parent(p)))
  {
    forall k | 0 <= k < |p|
      ensures IsDir(t, p[..k])
    {
      AncestorsAreDirs(t, p, k);
    }
  }

  /**
   * A conditional write goes through only over a file of the size it expects; an unconditional one wherever there
   * is a directory to put the file into and none in its place. Either stores exactly its data.
   */
  lemma WriteIsExact(t: Tree, p: Path, data: seq<byte>, expected: Option<nat>, io: Io)
    requires WellFormed(t)
    ensures var (t', response) := Perform(t, Write(p, data, expected), io);
            && (response.Wrote? <==>
                  && io.Works?
                  && if expected.Some? then IsFile(t, p) && |t[p].bytes| == expected.value
                     else p != [] && IsDir(t, Parent(p)) && !IsDir(t, p))
            && (response.Wrote? ==> response.size == |data| && t' == t[p := File(data)])
            && (response == Refused(NotFound) <==> expected.None? && p != [] && !IsDir(t, Parent(p)))
            && (response == Refused(Conflict) <==>
                  && expected.Some? && !(IsFile(t, p) && |t[p].bytes| == expected.value)
                  && forall k | 0 <= k < |p| :: !IsFile(t, p[..k]))
  {
    if p in t {
      ThereIsOpen(t, p);
    }
  }

  /** A delete succeeds exactly for what is there and is not the root, and without the flag only for a leaf. */
  lemma DeleteSucceeds(t: Tree, p: Path, recursive: bool, io: Io)
    ensures var response := Perform(t, Delete(p, recursive), io).1;
            var leaf := forall q | q in t && p <= q :: q == p;
            && (response.Deleted? <==>
                  io.Works? && p in t && p != [] && (IsFile(t, p) || recursive || leaf))
            && (response == Refused(NotEmpty) <==> p in t && p != [] && IsDir(t, p) && !recursive && !leaf)
  {
    hide Without, PartlyRemoved, Blocked;
    assert forall q | q in t && p <= q :: p < q || p == q;
  }

  /** It takes what is at its path and below, and nothing else. */
  lemma DeleteIsExact(t: Tree, p: Path, recursive: bool, io: Io)
    requires Perform(t, Delete(p, recursive), io).1.Deleted?
    ensures var t' := Perform(t, Delete(p, recursive), io).0;
            && p in t
            && (forall q :: q in t' <==> q in t && !(p <= q))
            && (forall q | q in t' :: t'[q] == t[q])
            && (!recursive && t[p].Directory? ==> |t'| == |t| - 1)
  {
    var t' := Perform(t, Delete(p, recursive), io).0;
    if !recursive && t[p].Directory? {
      DeleteSucceeds(t, p, recursive, io);
      assert t' == t - {p};
    }
  }

  /**
   * Making a directory works unless a file is in the way. It keeps everything, adds the missing part of its own path,
   * and makes all of that directories.
   */
  lemma MkdirIsExact(t: Tree, p: Path, io: Io)
    ensures var (t', response) := Perform(t, Mkdir(p), io);
            && (response.Created? <==> io.Works? && forall k | 0 <= k <= |p| :: !IsFile(t, p[..k]))
            && (response.Created? ==>
                  && (forall q | q in t :: q in t' && t'[q] == t[q])
                  && (forall k | 0 <= k <= |p| :: IsDir(t', p[..k]))
                  && (forall q | q in t' && q !in t :: q <= p)
                  && Perform(t', Mkdir(p), Works) == (t', Created))
  {
    assert p[..|p|] == p;
    var (t', response) := Perform(t, Mkdir(p), io);
    if response.Created? {
      forall k | 0 <= k <= |p|
        ensures IsDir(t', p[..k])
      {
        MadeAt(t, p, k);
      }
      assert p[..|p|] == p;
      assert Made(t', p) == t';
    }
  }

  /**
   * An append goes through exactly on a file, and on condition of a size only at exactly that size. It adds exactly
   * its data at the end and answers with the length that results.
   */
  lemma AppendIsExact(t: Tree, p: Path, data: seq<byte>, expected: Option<nat>, io: Io)
    requires WellFormed(t)
    ensures var (t', response) := Perform(t, Append(p, data, expected), io);
            var stale := expected.Some? && IsFile(t, p) && |t[p].bytes| != expected.value;
            && (response.Wrote? <==> IsFile(t, p) && !stale && io.Works?)
            && (response.Wrote? ==>
                  response.size == |t[p].bytes| + |data| && t' == t[p := File(t[p].bytes + data)])
            && (response == Refused(Conflict) <==> stale)
            && (response == Refused(IsADirectory) <==> IsDir(t, p))
            && (response == Refused(NotFound) <==> p !in t && forall k | 0 <= k < |p| :: !IsFile(t, p[..k]))
  {
    if p in t {
      ThereIsOpen(t, p);
    }
  }

  /** The root is a directory, and so is the parent of everything else. */
  ghost predicate WellFormed(t: Tree) {
    IsDir(t, []) && forall p | p in t && p != [] :: IsDir(t, Parent(p))
  }

  lemma {:induction false} AncestorsAreDirs(t: Tree, p: Path, k: nat)
    requires WellFormed(t) && p in t && k < |p|
    ensures IsDir(t, p[..k])
    decreases |p| - k
  {
    if k + 1 < |p| {
      AncestorsAreDirs(t, p, k + 1);
      assert Parent(p[..k + 1]) == p[..k];
    } else {
      assert Parent(p) == p[..k];
    }
  }

  lemma SetKeeps(t: Tree, p: Path, bytes: seq<byte>)
    requires WellFormed(t) && p != [] && IsDir(t, Parent(p)) && !IsDir(t, p)
    ensures WellFormed(t[p := File(bytes)])
  {
    var t' := t[p := File(bytes)];
    forall q | q in t' && q != []
      ensures IsDir(t', Parent(q))
    {
      assert Parent(q) != p;
    }
  }

  lemma WithoutKeeps(t: Tree, p: Path)
    requires WellFormed(t) && p != []
    ensures WellFormed(Without(t, p))
  {
    var t' := Without(t, p);
    forall q | q in t' && q != []
      ensures IsDir(t', Parent(q))
    {
      assert p <= Parent(q) ==> p <= q;
    }
  }

  lemma MadeAt(t: Tree, p: Path, k: nat)
    requires !Blocked(t, p) && !IsFile(t, p) && k <= |p|
    ensures IsDir(Made(t, p), p[..k])
  {
    assert k < |p| ==> !IsFile(t, p[..k]);
    assert p[..|p|] == p;
  }

  lemma MadeKeeps(t: Tree, p: Path)
    requires WellFormed(t) && !Blocked(t, p) && !IsFile(t, p)
    ensures WellFormed(Made(t, p))
  {
    var t' := Made(t, p);
    MadeAt(t, p, 0);
    assert p[..0] == [];
    forall q | q in t' && q != []
      ensures IsDir(t', Parent(q))
    {
      if q in t {
        assert IsDir(t, Parent(q));
      } else {
        var k :| 0 <= k <= |p| && q == p[..k];
        assert Parent(q) == p[..k - 1];
        MadeAt(t, p, k - 1);
      }
    }
  }

  lemma AddingPrefix(to: Path, a: Path, b: Path)
    requires to + a == to + b
    ensures a == b
  {
    assert (to + a)[|to|..] == a && (to + b)[|to|..] == b;
  }

  /** No two paths meet at one place after a rename to where there was nothing. */
  lemma RelocatedApart(t: Tree, from: Path, to: Path, p: Path, q: Path)
    requires WellFormed(t) && to !in t && p in t && q in t
    ensures Relocated(from, to, p) == Relocated(from, to, q) <==> p == q
  {
    if from <= p && from <= q {
      if Relocated(from, to, p) == Relocated(from, to, q) {
        AddingPrefix(to, p[|from|..], q[|from|..]);
        assert p == from + p[|from|..] && q == from + q[|from|..];
      }
    } else if from <= p {
      NothingBelow(t, to, q);
    } else if from <= q {
      NothingBelow(t, to, p);
    }
  }

  lemma NothingBelow(t: Tree, to: Path, q: Path)
    requires WellFormed(t) && to !in t && q in t
    ensures !(to <= q)
  {
    if to <= q {
      assert q[..|to|] == to;
      PrefixIsThere(t, q, |to|);
    }
  }

  lemma PrefixIsThere(t: Tree, q: Path, k: nat)
    requires WellFormed(t) && q in t && k <= |q|
    ensures q[..k] in t
  {
    if k < |q| {
      AncestorsAreDirs(t, q, k);
    } else {
      assert q[..k] == q;
    }
  }

  lemma MovedAt(t: Tree, from: Path, to: Path, p: Path)
    requires WellFormed(t) && to !in t && p in t
    ensures var t' := Moved(t, from, to);
            Relocated(from, to, p) in t' && t'[Relocated(from, to, p)] == t[p]
  {
    var q := Relocated(from, to, p);
    var source := Source(t, from, to, q);
    RelocatedApart(t, from, to, source, p);
  }

  lemma MovedFrom(t: Tree, from: Path, to: Path, q: Path) returns (p: Path)
    requires q in Moved(t, from, to)
    ensures p in t && Relocated(from, to, p) == q
  {
    p := Source(t, from, to, q);
  }

  /**
   * A rename is never a delete in disguise: everything in the tree is there afterwards with its contents, at
   * its new place or where it was; nothing else is; and no two things share a place.
   */
  lemma RenameKeepsEverything(t: Tree, from: Path, to: Path, io: Io)
    requires WellFormed(t) && Perform(t, Rename(from, to), io).1.Renamed?
    ensures var t' := Perform(t, Rename(from, to), io).0;
            && (forall p | p in t :: Relocated(from, to, p) in t' && t'[Relocated(from, to, p)] == t[p])
            && (forall q | q in t' :: exists p :: p in t && Relocated(from, to, p) == q)
            && (forall p, q | p in t && q in t && Relocated(from, to, p) == Relocated(from, to, q) :: p == q)
  {
    hide *;
    RenamedIsMoved(t, from, to, io);
    forall p | p in t
      ensures Relocated(from, to, p) in Moved(t, from, to) && Moved(t, from, to)[Relocated(from, to, p)] == t[p]
    {
      MovedAt(t, from, to, p);
    }
    forall q | q in Moved(t, from, to)
      ensures exists p :: p in t && Relocated(from, to, p) == q
    {
      var p := MovedFrom(t, from, to, q);
    }
    forall p, q | p in t && q in t && Relocated(from, to, p) == Relocated(from, to, q)
      ensures p == q
    {
      RelocatedApart(t, from, to, p, q);
    }
  }

  /** It succeeds exactly from something that is there to a free place in a directory, not below itself. */
  lemma RenameSucceeds(t: Tree, from: Path, to: Path, io: Io)
    ensures var response := Perform(t, Rename(from, to), io).1;
            && (response.Renamed? <==>
                  && io.Works? && from in t && from != []
                  && to !in t && to != [] && IsDir(t, Parent(to)) && !(from <= to))
            && (response == Refused(AlreadyExists) <==> from in t && from != [] && to in t && to != [])
  {
    hide Moved;
  }

  lemma RenamedIsMoved(t: Tree, from: Path, to: Path, io: Io)
    requires Perform(t, Rename(from, to), io).1.Renamed?
    ensures Perform(t, Rename(from, to), io).0 == Moved(t, from, to) && to !in t
  {
    hide Moved;
  }

  /** What was renamed itself: its new parent was there, and did not move. */
  lemma NewParentStays(t: Tree, from: Path, to: Path)
    requires WellFormed(t) && Judge(t, Rename(from, to)).None?
    ensures Relocated(from, to, from) == to && to != [] && to !in t
    ensures IsDir(t, Parent(to)) && Relocated(from, to, Parent(to)) == Parent(to)
  {
    assert to + from[|from|..] == to;
    assert from <= Parent(to) ==> from <= to;
  }

  lemma OutsideStays(from: Path, to: Path, p: Path)
    requires !(from <= p)
    ensures Relocated(from, to, p) == p && (p != [] ==> Relocated(from, to, Parent(p)) == Parent(p))
  {
    if p != [] {
      assert from <= Parent(p) ==> from <= p;
    }
  }

  lemma ParentMoves(t: Tree, from: Path, to: Path, p: Path)
    requires WellFormed(t) && Judge(t, Rename(from, to)).None? && p in t && Relocated(from, to, p) != []
    ensures IsDir(Moved(t, from, to), Parent(Relocated(from, to, p)))
  {
    hide Moved, Relocated, Blocked;
    NewParentStays(t, from, to);
    if p == from {
      MovedAt(t, from, to, Parent(to));
    } else if from <= p {
      ParentRelocated(from, to, p);
      MovedAt(t, from, to, Parent(p));
    } else {
      OutsideStays(from, to, p);
      MovedAt(t, from, to, Parent(p));
    }
  }

  lemma MovedKeeps(t: Tree, from: Path, to: Path)
    requires WellFormed(t) && Judge(t, Rename(from, to)).None?
    ensures WellFormed(Moved(t, from, to))
  {
    hide Moved, Relocated, Judge;
    NewParentStays(t, from, to);
    MovedAt(t, from, to, []);
    RootStays(t, from, to);
    forall q | q in Moved(t, from, to) && q != []
      ensures IsDir(Moved(t, from, to), Parent(q))
    {
      var p := MovedFrom(t, from, to, q);
      ParentMoves(t, from, to, p);
    }
  }

  lemma RootStays(t: Tree, from: Path, to: Path)
    requires Judge(t, Rename(from, to)).None?
    ensures Relocated(from, to, []) == []
  {
  }

  lemma ParentRelocated(from: Path, to: Path, p: Path)
    requires from < p
    ensures Relocated(from, to, p) != [] && Parent(Relocated(from, to, p)) == Relocated(from, to, Parent(p))
  {
    assert from <= Parent(p);
    assert (to + p[|from|..])[..|to + p[|from|..]| - 1] == to + p[..|p| - 1][|from|..];
  }

  lemma LitteredKeeps(t: Tree, p: Path, data: seq<byte>, io: Io)
    requires WellFormed(t) && (p != [] ==> IsDir(t, Parent(p)))
    ensures WellFormed(Littered(t, p, data, io))
  {
    if Litters(t, p, io) {
      var q := Beside(p, io.litter.value);
      assert Parent(q) == Parent(p);
      SetKeeps(t, q, data[..Capped(io.got, |data|)]);
    }
  }

  lemma PartlyRemovedKeeps(t: Tree, p: Path, removed: set<Path>)
    requires WellFormed(t)
    ensures WellFormed(PartlyRemoved(t, p, removed))
  {
    var t' := PartlyRemoved(t, p, removed);
    forall q | q in t' && q != []
      ensures IsDir(t', Parent(q))
    {
      TakenBelow(p, removed, q);
    }
  }

  /** What is taken is taken with everything below it, and never the root. */
  lemma TakenBelow(p: Path, removed: set<Path>, q: Path)
    requires q != []
    ensures Taken(p, removed, Parent(q)) ==> Taken(p, removed, q)
    ensures !Taken(p, removed, [])
  {
    if r :| r in removed && p < r <= Parent(q) {
      assert r <= q;
    }
  }

  lemma ReachedIsOpen(t: Tree, p: Path, made: nat)
    requires p != [] && !Blocked(t, p) && !IsFile(t, p)
    ensures !Blocked(t, Reached(p, made)) && !IsFile(t, Reached(p, made))
  {
    var r := Reached(p, made);
    forall k | 0 <= k <= |r|
      ensures !IsFile(t, r[..k])
    {
      assert r[..k] == p[..k];
    }
    assert r[..|r|] == r;
  }

  /** A change that stops half-way keeps the tree well formed too. */
  lemma InterruptedKeeps(t: Tree, r: Request, io: Io)
    requires WellFormed(t) && Judge(t, r).None? && io.Fails?
    ensures WellFormed(Interrupted(t, r, io))
  {
    hide Littered, PartlyRemoved, Made, Reached;
    match r
    case Write(p, data, _) => LitteredKeeps(t, p, data, io);
    case Append(p, data, _) => SetKeeps(t, p, t[p].bytes + data[..Capped(io.got, |data|)]);
    case Replace(p, _, data) => LitteredKeeps(t, p, data, io);
    case Delete(p, _) => PartlyRemovedKeeps(t, p, io.removed);
    case Mkdir(p) =>
      if p != [] {
        ReachedIsOpen(t, p, io.got);
        MadeKeeps(t, Reached(p, io.got));
      }
    case Rename(_, _) =>
  }

  /** Every request keeps the tree well formed. */
  lemma PerformKeepsShape(t: Tree, r: Request, io: Io)
    requires WellFormed(t)
    ensures WellFormed(Perform(t, r, io).0)
  {
    if Judge(t, r).None? {
      if io.Fails? {
        InterruptedKeeps(t, r, io);
      } else {
        match r
        case Write(p, data, _) =>
          if !IsDir(t, p) {
            SetKeeps(t, p, data);
          }
        case Append(p, data, _) => SetKeeps(t, p, t[p].bytes + data);
        case Replace(p, _, data) => SetKeeps(t, p, data);
        case Delete(p, _) => WithoutKeeps(t, p);
        case Mkdir(p) => MadeKeeps(t, p);
        case Rename(from, to) => MovedKeeps(t, from, to);
      }
    }
  }

  lemma {:induction false} RunsKeepShape(t: Tree, events: seq<Event>)
    requires WellFormed(t)
    ensures WellFormed(Run(t, events).tree)
  {
    RequestsLinearise(t, events);
    LogKeepsShape(t, Run(t, events).log);
  }

  lemma {:induction false} LogKeepsShape(t: Tree, log: seq<Commit>)
    requires WellFormed(t)
    ensures WellFormed(After(t, log))
  {
    if log != [] {
      LogKeepsShape(t, log[..|log| - 1]);
      PerformKeepsShape(After(t, log[..|log| - 1]), log[|log| - 1].request, log[|log| - 1].io);
    }
  }

  lemma RelocatedBack(t: Tree, from: Path, to: Path, p: Path)
    requires WellFormed(t) && to !in t && p in t
    ensures Relocated(to, from, Relocated(from, to, p)) == p
  {
    NothingBelow(t, to, p);
    if from <= p {
      assert (to + p[|from|..])[|to|..] == p[|from|..];
      assert from + p[|from|..] == p;
    }
  }

  lemma PlaceIsVacated(t: Tree, from: Path, to: Path)
    requires WellFormed(t) && Judge(t, Rename(from, to)).None?
    ensures from !in Moved(t, from, to)
  {
    NothingBelow(t, to, from);
    forall p | p in t
      ensures Relocated(from, to, p) != from
    {
      if from <= p {
        assert to <= Relocated(from, to, p);
      }
    }
  }

  lemma MovedBackAt(t: Tree, from: Path, to: Path, p: Path)
    requires WellFormed(t) && Judge(t, Rename(from, to)).None? && p in t
    ensures var back := Moved(Moved(t, from, to), to, from);
            p in back && back[p] == t[p]
  {
    hide Moved, WellFormed, Relocated;
    MovedKeeps(t, from, to);
    PlaceIsVacated(t, from, to);
    MovedAt(t, from, to, p);
    MovedAt(Moved(t, from, to), to, from, Relocated(from, to, p));
    RelocatedBack(t, from, to, p);
  }

  lemma MovedBackOnly(t: Tree, from: Path, to: Path, q: Path)
    requires WellFormed(t) && Judge(t, Rename(from, to)).None? && q in Moved(Moved(t, from, to), to, from)
    ensures q in t
  {
    hide Moved, WellFormed, Relocated;
    var r := MovedFrom(Moved(t, from, to), to, from, q);
    var p := MovedFrom(t, from, to, r);
    RelocatedBack(t, from, to, p);
  }

  lemma RenameBackAllowed(t: Tree, from: Path, to: Path)
    requires WellFormed(t) && Judge(t, Rename(from, to)).None?
    ensures Judge(Moved(t, from, to), Rename(to, from)).None?
  {
    PlaceIsVacated(t, from, to);
    MovedAt(t, from, to, from);
    assert to + from[|from|..] == to;
    MovedAt(t, from, to, Parent(from));
    NothingBelow(t, to, from);
    hide Moved, WellFormed;
  }

  /** A rename is undone by the rename the other way, which is never refused: the tree is back as it was. */
  lemma RenameIsUndone(t: Tree, from: Path, to: Path)
    requires WellFormed(t) && Perform(t, Rename(from, to), Works).1.Renamed?
    ensures Perform(Perform(t, Rename(from, to), Works).0, Rename(to, from), Works) == (t, Renamed)
  {
    hide Moved, WellFormed;
    assert Judge(t, Rename(from, to)).None?;
    assert Perform(t, Rename(from, to), Works).0 == Moved(t, from, to);
    RenameBackAllowed(t, from, to);
    assert Perform(Moved(t, from, to), Rename(to, from), Works) == (Moved(Moved(t, from, to), to, from), Renamed);
    var back := Moved(Moved(t, from, to), to, from);
    hide Judge, Perform;
    forall p | p in t
      ensures p in back && back[p] == t[p]
    {
      MovedBackAt(t, from, to, p);
    }
    forall q | q in back
      ensures q in t
    {
      MovedBackOnly(t, from, to, q);
    }
    assert back == t;
  }

  // ------------------------------------------------------------------
  // Appending to a log file
  // ------------------------------------------------------------------

  /** A request that touches the file at `p` by appending or not at all. */
  predicate OnlyAppends(r: Request, p: Path) {
    match r
    case Write(q, _, _) => q != p
    case Append(_, _, _) => true
    case Replace(q, _, _) => q != p
    case Delete(q, _) => !(q <= p)
    case Mkdir(_) => true
    case Rename(from, _) => !(from <= p)
  }

  lemma AppendingExtends(t: Tree, r: Request, io: Io, p: Path)
    requires WellFormed(t) && IsFile(t, p) && OnlyAppends(r, p)
    ensures var t' := Perform(t, r, io).0;
            IsFile(t', p) && t[p].bytes <= t'[p].bytes
  {
    if Judge(t, r).None? && r.Rename? {
      MovedAt(t, r.from, r.to, p);
    }
  }

  lemma LastStep(t: Tree, log: seq<Commit>)
    requires log != []
    ensures var n := |log| - 1;
            After(t, log) == Perform(After(t, log[..n]), log[n].request, log[n].io).0
  {
  }

  lemma {:induction false} LogKeepsFile(t: Tree, log: seq<Commit>, p: Path)
    requires WellFormed(t) && IsFile(t, p) && forall c | c in log :: OnlyAppends(c.request, p)
    ensures IsFile(After(t, log), p)
    ensures log != [] ==>
              && IsFile(After(t, log[..|log| - 1]), p)
              && After(t, log[..|log| - 1])[p].bytes <= After(t, log)[p].bytes
  {
    if log != [] {
      var n := |log| - 1;
      LogKeepsFile(t, log[..n], p);
      LogKeepsShape(t, log[..n]);
      LastStep(t, log);
      hide After, Perform, WellFormed;
      AppendingExtends(After(t, log[..n]), log[n].request, log[n].io, p);
    }
  }

  lemma {:induction false} LogExtends(t: Tree, log: seq<Commit>, p: Path, i: nat)
    requires WellFormed(t) && IsFile(t, p) && forall c | c in log :: OnlyAppends(c.request, p)
    requires i <= |log|
    ensures IsFile(After(t, log[..i]), p) && IsFile(After(t, log), p)
    ensures After(t, log[..i])[p].bytes <= After(t, log)[p].bytes
  {
    hide After, WellFormed;
    LogKeepsFile(t, log, p);
    if i < |log| {
      LogExtends(t, log[..|log| - 1], p, i);
      assert log[..|log| - 1][..i] == log[..i];
    } else {
      assert log[..i] == log;
    }
  }

  lemma {:induction false} SequentialAt(t: Tree, log: seq<Commit>, i: nat)
    requires Sequential(t, log) && i < |log|
    ensures log[i].response == Perform(After(t, log[..i]), log[i].request, log[i].io).1
    ensures After(t, log[..i + 1]) == Perform(After(t, log[..i]), log[i].request, log[i].io).0
  {
    assert log[..i + 1][..i] == log[..i];
    if i < |log| - 1 {
      SequentialAt(t, log[..|log| - 1], i);
      assert log[..|log| - 1][..i] == log[..i];
    }
  }

  /** Answer `i` is the success of an append to `p` on condition of a size. */
  predicate Claims(log: seq<Commit>, i: nat, p: Path) {
    i < |log| && log[i].response.Wrote? && log[i].request.Append? && log[i].request.path == p
    && log[i].request.expectedSize.Some?
  }

  function Claimed(log: seq<Commit>, i: nat, p: Path): (nat, nat)
    requires Claims(log, i, p)
  {
    (log[i].request.expectedSize.value, log[i].request.expectedSize.value + |log[i].request.data|)
  }

  lemma ClaimAt(t: Tree, log: seq<Commit>, i: nat, p: Path)
    requires WellFormed(t) && IsFile(t, p) && Sequential(t, log)
    requires (forall c | c in log :: OnlyAppends(c.request, p)) && Claims(log, i, p)
    ensures var (a, b) := (After(t, log[..i]), After(t, log[..i + 1]));
            && IsFile(a, p) && IsFile(b, p)
            && |a[p].bytes| == Claimed(log, i, p).0 && b[p].bytes == a[p].bytes + log[i].request.data
  {
    LogExtends(t, log[..i], p, i);
    assert log[..i][..i] == log[..i];
    SequentialAt(t, log, i);
    var r := log[i].request;
    LogKeepsShape(t, log[..i]);
    AppendIsExact(After(t, log[..i]), p, r.data, r.expectedSize, log[i].io);
    hide Perform, After, Sequential;
  }

  lemma RangesApart(t: Tree, log: seq<Commit>, p: Path, i: nat, j: nat)
    requires WellFormed(t) && IsFile(t, p) && Sequential(t, log) && forall c | c in log :: OnlyAppends(c.request, p)
    requires i < j && Claims(log, i, p) && Claims(log, j, p)
    ensures Claimed(log, i, p).1 <= Claimed(log, j, p).0
  {
    hide After, WellFormed, Sequential, OnlyAppends;
    ClaimAt(t, log, i, p);
    ClaimAt(t, log, j, p);
    LogExtends(t, log[..j], p, i + 1);
    assert log[..j][..i + 1] == log[..i + 1];
  }

  lemma ClaimHolds(t: Tree, log: seq<Commit>, p: Path, i: nat)
    requires WellFormed(t) && IsFile(t, p) && Sequential(t, log) && forall c | c in log :: OnlyAppends(c.request, p)
    requires Claims(log, i, p)
    ensures var (end, range) := (After(t, log), Claimed(log, i, p));
            && IsFile(end, p) && range.1 <= |end[p].bytes|
            && end[p].bytes[range.0..range.1] == log[i].request.data
  {
    hide After, WellFormed, Sequential, OnlyAppends;
    ClaimAt(t, log, i, p);
    LogExtends(t, log, p, i + 1);
    DataInExtension(After(t, log[..i])[p].bytes, log[i].request.data, After(t, log)[p].bytes);
  }

  /**
   * The ranges that successful conditional appends claim in a file nothing else changes follow one another
   * without overlap, and each holds its append's data at the end of the run.
   */
  lemma AppendRangesAreDisjoint(t: Tree, events: seq<Event>, p: Path, i: nat, j: nat)
    requires WellFormed(t) && IsFile(t, p)
    requires var log := Run(t, events).log;
             (forall c | c in log :: OnlyAppends(c.request, p)) && i < j && Claims(log, i, p) && Claims(log, j, p)
    ensures var w := Run(t, events);
            && Claimed(w.log, i, p).1 <= Claimed(w.log, j, p).0
            && IsFile(w.tree, p) && Claimed(w.log, i, p).1 <= |w.tree[p].bytes|
            && w.tree[p].bytes[Claimed(w.log, i, p).0..Claimed(w.log, i, p).1] == w.log[i].request.data
  {
    hide Run, After, WellFormed, Sequential, Inv, OnlyAppends, Claims, Claimed, IsFile;
    RequestsLinearise(t, events);
    RangesApart(t, Run(t, events).log, p, i, j);
    ClaimHolds(t, Run(t, events).log, p, i);
  }

  lemma DataInExtension(before: seq<byte>, data: seq<byte>, end: seq<byte>)
    requires before + data <= end
    ensures end[|before|..|before| + |data|] == data
  {
    assert end[..|before| + |data|] == before + data;
    assert end[|before|..|before| + |data|] == (before + data)[|before|..];
  }

  // ------------------------------------------------------------------
  // The handlers
  // ------------------------------------------------------------------

  /** The tree, changed in place by one handler at a time: each is called with the mutation lock held. */
  class FilesTree {
    var tree: Tree

    constructor ()
      ensures WellFormed(tree)
    {
      tree := map[[] := Directory];
    }

    /** `write`: beside the destination, then renamed over it; so all or nothing. */
    method WriteFile(p: Path, data: seq<byte>, expected: Option<nat>, io: Io) returns (response: Response)
      modifies this
      ensures (tree, response) == Perform(old(tree), Write(p, data, expected), io)
    {
      if expected.Some? {
        if p !in tree {
          var up := LookUp(p);
          return Refused(if up == NotFound then Conflict else up);
        }
        if tree[p].Directory? || |tree[p].bytes| != expected.value {
          return Refused(Conflict);
        }
      }
      if p == [] {
        return Refused(IoFailed);
      }
      if !IsDir(tree, Parent(p)) {
        return Refused(NotFound);
      }
      response := SwapIn(p, data, io);
    }

    /**
     * The end of `write` and of `replace`: a temporary file beside the destination, renamed over it; after a
     * failure it is removed, unless that fails as well.
     */
    method SwapIn(p: Path, data: seq<byte>, io: Io) returns (response: Response)
      modifies this
      ensures if io.Works? && !IsDir(old(tree), p)
              then response == Wrote(|data|) && tree == old(tree)[p := File(data)]
              else response == Refused(IoFailed) && tree == Littered(old(tree), p, data, io)
    {
      if io.Fails? || IsDir(tree, p) {
        tree := Littered(tree, p, data, io);
        return Refused(IoFailed);
      }
      tree := tree[p := File(data)];
      response := Wrote(|data|);
    }

    /** What a look at an absent path reports: whether it is missing, or a file is in the way. */
    method LookUp(p: Path) returns (code: Code)
      ensures code == Absent(tree, p)
    {
      code := NotFound;
      for k := 0 to |p|
        invariant code == if exists j | 0 <= j < k :: IsFile(tree, p[..j]) then IoFailed else NotFound
      {
        if IsFile(tree, p[..k]) {
          code := IoFailed;
        }
      }
    }

    /** `append`. */
    method AppendFile(p: Path, data: seq<byte>, expected: Option<nat>, io: Io) returns (response: Response)
      modifies this
      ensures (tree, response) == Perform(old(tree), Append(p, data, expected), io)
    {
      if p !in tree {
        var code := LookUp(p);
        return Refused(code);
      }
      if tree[p].Directory? {
        return Refused(IsADirectory);
      }
      var size := |tree[p].bytes|;
      if expected.Some? && size != expected.value {
        return Refused(Conflict);
      }
      if io.Fails? {
        tree := tree[p := File(tree[p].bytes + data[..Capped(io.got, |data|)])];
        return Refused(IoFailed);
      }
      tree := tree[p := File(tree[p].bytes + data)];
      response := Wrote(size + |data|);
    }

    /** `replace`: the length first, then the contents. */
    method ReplaceFile(p: Path, expected: seq<byte>, data: seq<byte>, io: Io) returns (response: Response)
      modifies this
      ensures (tree, response) == Perform(old(tree), Replace(p, expected, data), io)
    {
      if p !in tree {
        var code := LookUp(p);
        return Refused(if code == NotFound then Conflict else code);
      }
      if tree[p].Directory? || |tree[p].bytes| != |expected| {
        return Refused(Conflict);
      }
      if tree[p].bytes != expected {
        return Refused(Conflict);
      }
      response := SwapIn(p, data, io);
    }
  }
}
