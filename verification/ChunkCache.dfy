/**
 * The chunk cache: a map of content-addressed chunks with a use stamp on each, bounded in bytes. What it
 * implements is a list in order of use, oldest first, and the least of that list that has to go.
 */
module ChunkCache {
  import opened Wrappers
  import opened Bytes
  import opened ContentAddresses

  // ------------------------------------------------------------------
  // The list in order of use
  // ------------------------------------------------------------------

  datatype Stored = Stored(hash: Digest, data: seq<byte>)

  function Size(list: seq<Stored>): nat {
    if list == [] then 0 else |list[0].data| + Size(list[1..])
  }

  ghost predicate Holds(list: seq<Stored>, h: Digest) {
    exists i :: 0 <= i < |list| && list[i].hash == h
  }

  ghost predicate Unrepeated(list: seq<Stored>) {
    forall i, j | 0 <= i < j < |list| :: list[i].hash != list[j].hash
  }

  ghost function Find(list: seq<Stored>, h: Digest): (i: nat)
    requires Holds(list, h)
    ensures i < |list| && list[i].hash == h
  {
    var i :| 0 <= i < |list| && list[i].hash == h;
    i
  }

  function Without(list: seq<Stored>, i: nat): seq<Stored>
    requires i < |list|
  {
    list[..i] + list[i + 1..]
  }

  /** Using an entry makes it the most recent. */
  ghost function Used(list: seq<Stored>, h: Digest): seq<Stored>
    requires Holds(list, h)
  {
    Without(list, Find(list, h)) + [list[Find(list, h)]]
  }

  /** Drop from the old end until `incoming` more bytes fit. */
  function MakeRoom(list: seq<Stored>, incoming: nat, maxBytes: nat): seq<Stored> {
    if list == [] || Size(list) + incoming <= maxBytes then list else MakeRoom(list[1..], incoming, maxBytes)
  }

  ghost function Inserted(list: seq<Stored>, s: Stored, maxBytes: nat): seq<Stored> {
    if Holds(list, s.hash) then Used(list, s.hash)
    else if |s.data| > maxBytes then list
    else MakeRoom(list, |s.data|, maxBytes) + [s]
  }

  lemma {:induction false} SizeOfJoin(a: seq<Stored>, b: seq<Stored>)
    ensures Size(a + b) == Size(a) + Size(b)
  {
    if a == [] {
      assert a + b == b;
    } else {
      SizeOfJoin(a[1..], b);
      assert (a + b)[1..] == a[1..] + b;
    }
  }

  /**
   * What is evicted is a run of the least recently used entries, and the shortest that makes room: keeping any
   * longer tail would not leave enough.
   */
  lemma {:induction false} MakeRoomIsShortest(list: seq<Stored>, incoming: nat, maxBytes: nat) returns (k: nat)
    ensures k <= |list| && MakeRoom(list, incoming, maxBytes) == list[k..]
    ensures incoming <= maxBytes ==> Size(list[k..]) + incoming <= maxBytes
    ensures forall j | 0 <= j < k :: Size(list[j..]) + incoming > maxBytes
  {
    if list == [] || Size(list) + incoming <= maxBytes {
      k := 0;
      assert list[0..] == list;
    } else {
      var k0 := MakeRoomIsShortest(list[1..], incoming, maxBytes);
      k := k0 + 1;
      forall j | 0 <= j < k
        ensures Size(list[j..]) + incoming > maxBytes
      {
        if j == 0 {
          assert list[0..] == list;
        } else {
          assert list[j..] == list[1..][j - 1..];
        }
      }
    }
  }

  lemma UsedKeeps(list: seq<Stored>, h: Digest)
    requires Holds(list, h)
    ensures Size(Used(list, h)) == Size(list) && multiset(Used(list, h)) == multiset(list)
  {
    var i := Find(list, h);
    assert list == list[..i] + ([list[i]] + list[i + 1..]);
    SizeOfJoin(list[..i], [list[i]] + list[i + 1..]);
    SizeOfJoin([list[i]], list[i + 1..]);
    SizeOfJoin(list[..i] + list[i + 1..], [list[i]]);
    SizeOfJoin(list[..i], list[i + 1..]);
  }

  // ------------------------------------------------------------------
  // What is kept
  // ------------------------------------------------------------------

  /**
   * An inserted chunk that can fit at all is held, as the most recent; if it is new, what stays before it is the
   * longest recent run that leaves it room.
   */
  lemma InsertedIsRecent(list: seq<Stored>, s: Stored, maxBytes: nat) returns (k: nat)
    ensures var after := Inserted(list, s, maxBytes);
            && (Holds(list, s.hash) || |s.data| <= maxBytes ==> after != [] && after[|after| - 1].hash == s.hash)
            && (!Holds(list, s.hash) && |s.data| <= maxBytes ==>
                  && k <= |list| && after == list[k..] + [s] && Size(after) <= maxBytes
                  && forall j | 0 <= j < k :: Size(list[j..] + [s]) > maxBytes)
            && (!Holds(list, s.hash) && |s.data| > maxBytes ==> after == list)
  {
    k := MakeRoomIsShortest(list, |s.data|, maxBytes);
    SizeOfOne(s);
    SizeOfJoin(list[k..], [s]);
    forall j | 0 <= j < k
      ensures Size(list[j..] + [s]) > maxBytes
    {
      SizeOfJoin(list[j..], [s]);
    }
  }

  lemma InsertedIsHeld(list: seq<Stored>, s: Stored, maxBytes: nat)
    requires |s.data| <= maxBytes
    ensures var after := Inserted(list, s, maxBytes);
            after != [] && after[|after| - 1].hash == s.hash && Holds(after, s.hash)
  {
    var k := InsertedIsRecent(list, s, maxBytes);
  }

  lemma SizeOfOne(s: Stored)
    ensures Size([s]) == |s.data|
  {
    assert [s][1..] == [];
  }

  function WithoutHash(list: seq<Stored>, h: Digest): seq<Stored> {
    if list == [] then [] else (if list[0].hash == h then [] else [list[0]]) + WithoutHash(list[1..], h)
  }

  /** The distinct chunks of a trace of uses, in the order of their last use. */
  function RecentOf(trace: seq<Stored>): seq<Stored> {
    if trace == [] then []
    else WithoutHash(RecentOf(trace[..|trace| - 1]), trace[|trace| - 1].hash) + [trace[|trace| - 1]]
  }

  /** All along the trace the distinct chunks used so far fit together. */
  ghost predicate FitsThroughout(trace: seq<Stored>, maxBytes: nat) {
    forall n | 0 <= n <= |trace| :: Size(RecentOf(trace[..n])) <= maxBytes
  }

  ghost predicate IsTail(t: seq<Stored>, list: seq<Stored>) {
    |t| <= |list| && list[|list| - |t|..] == t
  }

  /** A chunk has been used: it was held, or it has been inserted. */
  ghost predicate Uses(list: seq<Stored>, after: seq<Stored>, s: Stored, maxBytes: nat) {
    if Holds(list, s.hash) then after == Used(list, s.hash) && list[Find(list, s.hash)] == s
    else after == Inserted(list, s, maxBytes)
  }

  lemma {:induction false} NothingToDrop(list: seq<Stored>, h: Digest)
    requires !Holds(list, h)
    ensures WithoutHash(list, h) == list
  {
    if list != [] {
      assert list[0].hash != h;
      assert forall i | 0 <= i < |list| - 1 :: list[1..][i] == list[i + 1];
      NothingToDrop(list[1..], h);
    }
  }

  lemma {:induction false} DropOne(list: seq<Stored>, i: nat)
    requires Unrepeated(list) && i < |list|
    ensures WithoutHash(list, list[i].hash) == list[..i] + list[i + 1..]
  {
    var h := list[i].hash;
    assert forall j | 0 <= j < |list| - 1 :: list[1..][j] == list[j + 1];
    if i == 0 {
      NothingToDrop(list[1..], h);
    } else {
      DropOne(list[1..], i - 1);
      assert list[..i] == [list[0]] + list[1..][..i - 1] && list[1..][i..] == list[i + 1..];
    }
  }

  lemma TailRepeatsNothing(list: seq<Stored>, p: nat)
    requires Unrepeated(list) && p <= |list|
    ensures Unrepeated(list[p..])
    ensures forall i | 0 <= i < p :: !Holds(list[p..], list[i].hash)
  {
    assert forall j | 0 <= j < |list| - p :: list[p..][j] == list[p + j];
  }

  lemma RemovedBeforeTail(list: seq<Stored>, i: nat, p: nat, s: Stored)
    requires i < p <= |list|
    ensures IsTail(list[p..] + [s], Without(list, i) + [s])
  {
    assert Without(list, i) + [s] == (list[..i] + list[i + 1..p]) + (list[p..] + [s]);
    TailOfJoin(list[..i] + list[i + 1..p], list[p..] + [s]);
  }

  lemma RemovedInTail(list: seq<Stored>, i: nat, p: nat, s: Stored)
    requires p <= i < |list|
    ensures IsTail(Without(list[p..], i - p) + [s], Without(list, i) + [s])
  {
    assert list[p..][..i - p] == list[p..i] && list[p..][i - p + 1..] == list[i + 1..];
    assert Without(list, i) + [s] == list[..p] + ((list[p..i] + list[i + 1..]) + [s]);
    TailOfJoin(list[..p], (list[p..i] + list[i + 1..]) + [s]);
  }

  lemma TailOfJoin(a: seq<Stored>, b: seq<Stored>)
    ensures IsTail(b, a + b)
  {
  }

  lemma UsedTail(list: seq<Stored>, p: nat, h: Digest)
    requires Unrepeated(list) && p <= |list| && Holds(list, h)
    ensures IsTail(WithoutHash(list[p..], h) + [list[Find(list, h)]], Used(list, h))
  {
    hide Without, WithoutHash, IsTail;
    var i, s := Find(list, h), list[Find(list, h)];
    TailRepeatsNothing(list, p);
    if i < p {
      NothingToDrop(list[p..], h);
      RemovedBeforeTail(list, i, p, s);
    } else {
      DropOne(list[p..], i - p);
      WithoutIs(list[p..], i - p);
      RemovedInTail(list, i, p, s);
    }
  }

  lemma WithoutIs(list: seq<Stored>, i: nat)
    requires i < |list|
    ensures Without(list, i) == list[..i] + list[i + 1..]
  {
  }

  lemma InsertedTail(list: seq<Stored>, p: nat, s: Stored, maxBytes: nat)
    requires p <= |list| && !Holds(list, s.hash) && Size(list[p..] + [s]) <= maxBytes
    ensures IsTail(list[p..] + [s], Inserted(list, s, maxBytes))
  {
    SizeOfJoin(list[p..], [s]);
    SizeOfOne(s);
    var k := InsertedIsRecent(list, s, maxBytes);
    assert k <= p;
    assert list[k..] + [s] == list[k..p] + (list[p..] + [s]);
  }

  /** One more use keeps the recent chunks together at the recent end, if with it they still fit. */
  lemma RecentStay(list: seq<Stored>, after: seq<Stored>, trace: seq<Stored>, s: Stored, maxBytes: nat)
    requires Unrepeated(list) && IsTail(RecentOf(trace), list) && Uses(list, after, s, maxBytes)
    requires Size(RecentOf(trace + [s])) <= maxBytes
    ensures IsTail(RecentOf(trace + [s]), after)
  {
    var recent := RecentOf(trace);
    var p := |list| - |recent|;
    assert (trace + [s])[..|trace|] == trace;
    assert RecentOf(trace + [s]) == WithoutHash(recent, s.hash) + [s];
    hide RecentOf, WithoutHash, Inserted, Used, Size;
    if Holds(list, s.hash) {
      UsedTail(list, p, s.hash);
    } else {
      TailHoldsLess(list, p, s.hash);
      NothingToDrop(recent, s.hash);
      InsertedTail(list, p, s, maxBytes);
    }
  }

  lemma TailHoldsLess(list: seq<Stored>, p: nat, h: Digest)
    requires p <= |list| && !Holds(list, h)
    ensures !Holds(list[p..], h)
  {
  }

  // Over runs.

  datatype Op = Gets(h: Digest) | Inserts(data: seq<byte>)

  ghost function Apply(blake: Blake, maxBytes: nat, list: seq<Stored>, op: Op): seq<Stored> {
    match op
    case Gets(h) => if Holds(list, h) then Used(list, h) else list
    case Inserts(data) => Inserted(list, Stored(blake(data), data), maxBytes)
  }

  /** What an operation uses: nothing, when it misses or brings a chunk that could never fit. */
  ghost function UsedBy(blake: Blake, maxBytes: nat, list: seq<Stored>, op: Op): seq<Stored> {
    var h := if op.Gets? then op.h else blake(op.data);
    if Holds(list, h) then [list[Find(list, h)]]
    else if op.Inserts? && |op.data| <= maxBytes then [Stored(h, op.data)]
    else []
  }

  ghost function After(blake: Blake, maxBytes: nat, list: seq<Stored>, ops: seq<Op>): seq<Stored> {
    if ops == [] then list
    else Apply(blake, maxBytes, After(blake, maxBytes, list, ops[..|ops| - 1]), ops[|ops| - 1])
  }

  ghost function Trace(blake: Blake, maxBytes: nat, list: seq<Stored>, ops: seq<Op>): seq<Stored> {
    if ops == [] then []
    else
      var before := ops[..|ops| - 1];
      Trace(blake, maxBytes, list, before)
      + UsedBy(blake, maxBytes, After(blake, maxBytes, list, before), ops[|ops| - 1])
  }

  lemma ApplyUses(blake: Blake, maxBytes: nat, list: seq<Stored>, op: Op)
    ensures var (after, used) := (Apply(blake, maxBytes, list, op), UsedBy(blake, maxBytes, list, op));
            && |used| <= 1 && (used == [] ==> after == list)
            && (used != [] ==> Uses(list, after, used[0], maxBytes))
  {
    hide Used, MakeRoom;
  }

  lemma ApplyRepeatsNothing(blake: Blake, maxBytes: nat, list: seq<Stored>, op: Op)
    requires Unrepeated(list)
    ensures Unrepeated(Apply(blake, maxBytes, list, op))
  {
    ApplyUses(blake, maxBytes, list, op);
    var used := UsedBy(blake, maxBytes, list, op);
    hide Apply, UsedBy;
    if used != [] {
      UsesRepeatsNothing(list, Apply(blake, maxBytes, list, op), used[0], maxBytes);
    }
  }

  lemma UsesRepeatsNothing(list: seq<Stored>, after: seq<Stored>, s: Stored, maxBytes: nat)
    requires Unrepeated(list) && Uses(list, after, s, maxBytes)
    ensures Unrepeated(after)
  {
    hide Inserted, Without;
    if Holds(list, s.hash) {
      var i := Find(list, s.hash);
      WithoutLeavesOut(list, i);
      hide Holds;
    } else {
      var k := InsertedIsRecent(list, s, maxBytes);
      TailRepeatsNothing(list, if k <= |list| then k else 0);
    }
  }

  /**
   * What least recently used means: in every run of gets and inserts, the distinct chunks used in it are all held at
   * its end, most recent last, as long as they fit together; whatever was there before makes room for them.
   */
  lemma {:induction false} RecentChunksAreHeld(blake: Blake, maxBytes: nat, list: seq<Stored>, ops: seq<Op>)
    requires Unrepeated(list) && FitsThroughout(Trace(blake, maxBytes, list, ops), maxBytes)
    ensures var after := After(blake, maxBytes, list, ops);
            Unrepeated(after) && IsTail(RecentOf(Trace(blake, maxBytes, list, ops)), after)
  {
    if ops == [] {
      assert list[|list|..] == [];
    } else {
      var before, op := ops[..|ops| - 1], ops[|ops| - 1];
      var l, trace := After(blake, maxBytes, list, before), Trace(blake, maxBytes, list, before);
      var used := UsedBy(blake, maxBytes, l, op);
      assert Trace(blake, maxBytes, list, ops) == trace + used;
      assert After(blake, maxBytes, list, ops) == Apply(blake, maxBytes, l, op);
      hide RecentOf, Trace, After, Apply, UsedBy, Size, IsTail, Uses;
      FitsBefore(trace, used, maxBytes);
      RecentChunksAreHeld(blake, maxBytes, list, before);
      ApplyUses(blake, maxBytes, l, op);
      ApplyRepeatsNothing(blake, maxBytes, l, op);
      if used == [] {
        assert trace + used == trace;
      } else {
        assert used == [used[0]];
        RecentStay(l, Apply(blake, maxBytes, l, op), trace, used[0], maxBytes);
      }
    }
  }

  lemma FitsBefore(trace: seq<Stored>, used: seq<Stored>, maxBytes: nat)
    requires FitsThroughout(trace + used, maxBytes)
    ensures FitsThroughout(trace, maxBytes) && Size(RecentOf(trace + used)) <= maxBytes
  {
    hide RecentOf, Size;
    var all := trace + used;
    assert all[..|all|] == all;
    forall n | 0 <= n <= |trace|
      ensures Size(RecentOf(trace[..n])) <= maxBytes
    {
      assert all[..n] == trace[..n];
    }
  }

  lemma {:induction false} WithoutHashSmaller(list: seq<Stored>, h: Digest)
    ensures Size(WithoutHash(list, h)) <= Size(list)
  {
    if list != [] {
      var rest := WithoutHash(list[1..], h);
      WithoutHashSmaller(list[1..], h);
      assert ([list[0]] + rest)[1..] == rest && [] + rest == rest;
    }
  }

  lemma {:induction false} DroppedIsLeft(list: seq<Stored>, h: Digest, s: Stored)
    ensures s in WithoutHash(list, h) <==> s in list && s.hash != h
  {
    if list != [] {
      DroppedIsLeft(list[1..], h, s);
    }
  }

  lemma {:induction false} RecentIsUsed(trace: seq<Stored>, s: Stored)
    ensures s in RecentOf(trace) ==> s in trace
  {
    if trace != [] {
      RecentIsUsed(trace[..|trace| - 1], s);
      DroppedIsLeft(RecentOf(trace[..|trace| - 1]), trace[|trace| - 1].hash, s);
    }
  }

  lemma {:induction false} RecentRepeatsNothing(trace: seq<Stored>)
    ensures Unrepeated(RecentOf(trace))
  {
    if trace != [] {
      var recent, last := RecentOf(trace[..|trace| - 1]), trace[|trace| - 1];
      RecentRepeatsNothing(trace[..|trace| - 1]);
      if Holds(recent, last.hash) {
        DropOne(recent, Find(recent, last.hash));
        WithoutLeavesOut(recent, Find(recent, last.hash));
        WithoutIs(recent, Find(recent, last.hash));
      } else {
        NothingToDrop(recent, last.hash);
      }
      hide WithoutHash, Without;
    }
  }

  /** No two of the chunks share an address and differ. */
  ghost predicate OneContent(trace: seq<Stored>) {
    forall a, b | a in trace && b in trace && a.hash == b.hash :: a == b
  }

  lemma DropsAtMost(recent: seq<Stored>, last: Stored)
    requires Unrepeated(recent) && forall s | s in recent && s.hash == last.hash :: s == last
    ensures Size(recent) <= Size(WithoutHash(recent, last.hash)) + |last.data|
  {
    if Holds(recent, last.hash) {
      var i := Find(recent, last.hash);
      DropOne(recent, i);
      assert recent[i] in recent;
      assert recent == recent[..i] + ([recent[i]] + recent[i + 1..]);
      SizeOfJoin(recent[..i], [recent[i]] + recent[i + 1..]);
      SizeOfJoin([recent[i]], recent[i + 1..]);
      SizeOfOne(recent[i]);
      SizeOfJoin(recent[..i], recent[i + 1..]);
      hide Size, WithoutHash;
    } else {
      NothingToDrop(recent, last.hash);
    }
  }

  /** When addresses tell chunks apart, a trace fits all along if its distinct chunks fit in the end. */
  lemma {:induction false} DistinctChunksFit(trace: seq<Stored>, maxBytes: nat)
    requires OneContent(trace) && Size(RecentOf(trace)) <= maxBytes
    ensures FitsThroughout(trace, maxBytes)
  {
    if trace == [] {
      assert trace[..0] == [];
    } else {
      var rest, last := trace[..|trace| - 1], trace[|trace| - 1];
      var recent := RecentOf(rest);
      RecentRepeatsNothing(rest);
      forall s | s in recent && s.hash == last.hash
        ensures s == last
      {
        RecentIsUsed(rest, s);
        assert s in trace && last in trace;
      }
      DropsAtMost(recent, last);
      SizeOfJoin(WithoutHash(recent, last.hash), [last]);
      SizeOfOne(last);
      hide Size, WithoutHash;
      assert RecentOf(trace) == WithoutHash(recent, last.hash) + [last];
      DistinctChunksFit(rest, maxBytes);
      assert trace == rest + [last];
      hide RecentOf;
      FitsAndOne(rest, last, maxBytes);
    }
  }

  lemma FitsAndOne(rest: seq<Stored>, last: Stored, maxBytes: nat)
    requires FitsThroughout(rest, maxBytes) && Size(RecentOf(rest + [last])) <= maxBytes
    ensures FitsThroughout(rest + [last], maxBytes)
  {
    hide RecentOf, Size;
    var all := rest + [last];
    forall n | 0 <= n <= |all|
      ensures Size(RecentOf(all[..n])) <= maxBytes
    {
      if n <= |rest| {
        assert all[..n] == rest[..n];
      } else {
        assert all[..n] == all;
      }
    }
  }

  /** A trace that fits with all its repetitions fits. */
  lemma {:induction false} SmallTraceFits(trace: seq<Stored>, maxBytes: nat)
    requires Size(trace) <= maxBytes
    ensures FitsThroughout(trace, maxBytes) && Size(RecentOf(trace)) <= Size(trace)
  {
    if trace == [] {
      assert trace[..0] == [];
    } else {
      var rest, last := trace[..|trace| - 1], trace[|trace| - 1];
      assert trace == rest + [last];
      SizeOfJoin(rest, [last]);
      SizeOfOne(last);
      SmallTraceFits(rest, maxBytes);
      WithoutHashSmaller(RecentOf(rest), last.hash);
      SizeOfJoin(WithoutHash(RecentOf(rest), last.hash), [last]);
      assert RecentOf(trace) == WithoutHash(RecentOf(rest), last.hash) + [last];
      hide RecentOf, Size, WithoutHash;
      FitsAndOne(rest, last, maxBytes);
    }
  }

  // ------------------------------------------------------------------
  // The map that stands for the list
  // ------------------------------------------------------------------

  datatype Entry = Entry(data: seq<byte>, lastUsed: nat)

  /** Each entry of the map is an entry of the list, and each once. */
  ghost predicate Indexes(entries: map<Digest, Entry>, list: seq<Stored>) {
    && Unrepeated(list)
    && (forall h | h in entries :: Holds(list, h))
    && (forall i | 0 <= i < |list| :: list[i].hash in entries && entries[list[i].hash].data == list[i].data)
  }

  /** Stamps increase along the list and none is in the future; in particular no two are equal. */
  ghost predicate Stamped(entries: map<Digest, Entry>, list: seq<Stored>, clock: nat)
    requires Indexes(entries, list)
  {
    && (forall i, j | 0 <= i < j < |list| :: entries[list[i].hash].lastUsed < entries[list[j].hash].lastUsed)
    && (forall i | 0 <= i < |list| :: entries[list[i].hash].lastUsed <= clock)
  }

  lemma WithoutAt(list: seq<Stored>, i: nat, j: nat)
    requires i < |list| && j < |list| - 1
    ensures |Without(list, i)| == |list| - 1
    ensures Without(list, i)[j] == list[if j < i then j else j + 1]
  {
  }

  /** What is left of a list is the entries before and after the one taken out. */
  ghost predicate LeavesOut(list: seq<Stored>, i: nat, rest: seq<Stored>)
    requires i < |list|
  {
    |rest| == |list| - 1 && forall j | 0 <= j < |rest| :: rest[j] == list[if j < i then j else j + 1]
  }

  lemma WithoutLeavesOut(list: seq<Stored>, i: nat)
    requires i < |list|
    ensures LeavesOut(list, i, Without(list, i))
  {
    forall j | 0 <= j < |list| - 1
      ensures Without(list, i)[j] == list[if j < i then j else j + 1]
    {
      WithoutAt(list, i, j);
    }
  }

  lemma StillHeld(list: seq<Stored>, i: nat, rest: seq<Stored>, g: Digest)
    requires i < |list| && LeavesOut(list, i, rest) && Holds(list, g) && g != list[i].hash
    ensures Holds(rest, g)
  {
    var j := Find(list, g);
    assert rest[if j < i then j else j - 1].hash == g;
  }

  lemma RemoveIndexes(entries: map<Digest, Entry>, list: seq<Stored>, i: nat)
    requires Indexes(entries, list) && i < |list|
    ensures Indexes(entries - {list[i].hash}, Without(list, i))
  {
    hide Without, Holds;
    var rest := Without(list, i);
    WithoutLeavesOut(list, i);
    forall g | g in entries && g != list[i].hash
      ensures Holds(rest, g)
    {
      StillHeld(list, i, rest, g);
    }
  }

  lemma RemoveStamped(entries: map<Digest, Entry>, list: seq<Stored>, clock: nat, i: nat)
    requires Indexes(entries, list) && Stamped(entries, list, clock) && i < |list|
    requires Indexes(entries - {list[i].hash}, Without(list, i))
    ensures Stamped(entries - {list[i].hash}, Without(list, i), clock)
  {
    hide Without, Holds;
    WithoutLeavesOut(list, i);
  }

  lemma AppendIndexes(entries: map<Digest, Entry>, list: seq<Stored>, s: Stored, stamp: nat)
    requires Indexes(entries, list) && s.hash !in entries
    ensures Indexes(entries[s.hash := Entry(s.data, stamp)], list + [s])
  {
    forall g | g in entries || g == s.hash
      ensures Holds(list + [s], g)
    {
      var j := if g == s.hash then |list| else Find(list, g);
      assert (list + [s])[j].hash == g;
    }
  }

  lemma AppendStamped(entries: map<Digest, Entry>, list: seq<Stored>, clock: nat, s: Stored)
    requires Indexes(entries, list) && Stamped(entries, list, clock) && s.hash !in entries
    requires Indexes(entries[s.hash := Entry(s.data, clock + 1)], list + [s])
    ensures Stamped(entries[s.hash := Entry(s.data, clock + 1)], list + [s], clock + 1)
  {
    hide Holds, Unrepeated;
    var all, after := list + [s], entries[s.hash := Entry(s.data, clock + 1)];
    forall i | 0 <= i < |all|
      ensures after[all[i].hash].lastUsed
           == if i < |list| then entries[list[i].hash].lastUsed else clock + 1
    {
      assert i < |list| ==> all[i] == list[i] && list[i].hash != s.hash;
    }
  }

  /** The entry with the least stamp is the first of the list. */
  lemma OldestIsFirst(entries: map<Digest, Entry>, list: seq<Stored>, clock: nat, oldest: Digest)
    requires Indexes(entries, list) && Stamped(entries, list, clock)
    requires oldest in entries && forall h | h in entries :: entries[oldest].lastUsed <= entries[h].lastUsed
    ensures list != [] && list[0].hash == oldest && entries[oldest].data == list[0].data
  {
    assert Holds(list, oldest);
    var i := Find(list, oldest);
    assert list[0].hash in entries;
  }

  // ------------------------------------------------------------------
  // The cache
  // ------------------------------------------------------------------

  /** Every stored chunk hashes to its own key. */
  ghost predicate Addressed(blake: Blake, list: seq<Stored>) {
    forall s | s in list :: blake(s.data) == s.hash
  }

  /** What the fields mean. */
  ghost predicate Represents(blake: Blake, maxBytes: nat, usedBytes: nat, clock: nat, entries: map<Digest, Entry>,
                             list: seq<Stored>)
  {
    && Indexes(entries, list) && Stamped(entries, list, clock)
    && Addressed(blake, list)
    && usedBytes == Size(list) <= maxBytes
  }

  lemma UsedAddressed(blake: Blake, list: seq<Stored>, h: Digest)
    requires Holds(list, h) && Addressed(blake, list)
    ensures Addressed(blake, Used(list, h))
  {
    UsedKeeps(list, h);
    assert forall s :: s in Used(list, h) ==> s in multiset(Used(list, h));
  }

  /** A use is a removal and an insertion. */
  lemma TouchAgrees(entries: map<Digest, Entry>, list: seq<Stored>, clock: nat, h: Digest)
    requires Indexes(entries, list) && Stamped(entries, list, clock) && h in entries
    ensures Holds(list, h) && list[Find(list, h)].data == entries[h].data
    ensures var entries' := entries[h := Entry(entries[h].data, clock + 1)];
            Indexes(entries', Used(list, h)) && Stamped(entries', Used(list, h), clock + 1)
  {
    var i := Find(list, h);
    RemoveIndexes(entries, list, i);
    RemoveStamped(entries, list, clock, i);
    AppendIndexes(entries - {h}, Without(list, i), list[i], clock + 1);
    AppendStamped(entries - {h}, Without(list, i), clock, list[i]);
    assert (entries - {h})[h := Entry(list[i].data, clock + 1)] == entries[h := Entry(entries[h].data, clock + 1)];
  }

  lemma TouchRepresents(blake: Blake, maxBytes: nat, usedBytes: nat, clock: nat, entries: map<Digest, Entry>,
                        list: seq<Stored>, h: Digest)
    requires Represents(blake, maxBytes, usedBytes, clock, entries, list) && h in entries
    ensures Holds(list, h) && list[Find(list, h)].data == entries[h].data
    ensures Represents(blake, maxBytes, usedBytes, clock + 1, entries[h := Entry(entries[h].data, clock + 1)],
                       Used(list, h))
  {
    TouchAgrees(entries, list, clock, h);
    UsedKeeps(list, h);
    UsedAddressed(blake, list, h);
  }

  lemma EvictRepresents(blake: Blake, maxBytes: nat, usedBytes: nat, clock: nat, entries: map<Digest, Entry>,
                        list: seq<Stored>, oldest: Digest)
    requires Represents(blake, maxBytes, usedBytes, clock, entries, list)
    requires oldest in entries && forall h | h in entries :: entries[oldest].lastUsed <= entries[h].lastUsed
    ensures list != [] && |entries[oldest].data| <= usedBytes
    ensures Represents(blake, maxBytes, usedBytes - |entries[oldest].data|, clock, entries - {oldest}, list[1..])
  {
    OldestIsFirst(entries, list, clock, oldest);
    assert Without(list, 0) == list[1..];
    RemoveIndexes(entries, list, 0);
    RemoveStamped(entries, list, clock, 0);
  }

  lemma AddRepresents(blake: Blake, maxBytes: nat, usedBytes: nat, clock: nat, entries: map<Digest, Entry>,
                      list: seq<Stored>, s: Stored)
    requires Represents(blake, maxBytes, usedBytes, clock, entries, list)
    requires s.hash !in entries && blake(s.data) == s.hash && usedBytes + |s.data| <= maxBytes
    ensures Represents(blake, maxBytes, usedBytes + |s.data|, clock + 1, entries[s.hash := Entry(s.data, clock + 1)],
                       list + [s])
  {
    AppendIndexes(entries, list, s, clock + 1);
    AppendStamped(entries, list, clock, s);
    SizeOfJoin(list, [s]);
  }

  lemma HeldIsIndexed(entries: map<Digest, Entry>, list: seq<Stored>, h: Digest)
    requires Indexes(entries, list)
    ensures Holds(list, h) <==> h in entries
    ensures list == [] <==> entries == map[]
  {
    if list != [] {
      assert list[0].hash in entries;
    }
    if entries != map[] {
      var g :| g in entries;
      assert Holds(list, g);
    }
  }

  lemma HeldRepresents(blake: Blake, maxBytes: nat, usedBytes: nat, clock: nat, entries: map<Digest, Entry>,
                       list: seq<Stored>, h: Digest)
    requires Represents(blake, maxBytes, usedBytes, clock, entries, list)
    ensures Holds(list, h) <==> h in entries
    ensures list == [] <==> entries == map[]
    ensures usedBytes == Size(list) <= maxBytes
  {
    HeldIsIndexed(entries, list, h);
  }

  class Cache {
    const blake: Blake
    const maxBytes: nat
    var usedBytes: nat
    var clock: nat
    var entries: map<Digest, Entry>
    /** The entries in order of use, oldest first. */
    ghost var list: seq<Stored>

    ghost predicate Valid()
      reads this
    {
      Represents(blake, maxBytes, usedBytes, clock, entries, list)
    }

    constructor (blake: Blake, maxBytes: nat)
      ensures Valid() && list == [] && this.blake == blake && this.maxBytes == maxBytes
    {
      this.blake, this.maxBytes := blake, maxBytes;
      usedBytes, clock, entries, list := 0, 0, map[], [];
    }

    method Touch(h: Digest)
      requires Valid() && h in entries
      modifies this`clock, this`entries, this`list
      ensures Valid() && h in entries && entries[h].data == old(entries)[h].data
      ensures Holds(old(list), h) && list == Used(old(list), h)
    {
      hide Represents;
      TouchRepresents(blake, maxBytes, usedBytes, clock, entries, list, h);
      clock := clock + 1;
      entries := entries[h := Entry(entries[h].data, clock)];
      list := Used(list, h);
    }

    /** Marks the chunk as used, if it is there. */
    method Get(h: Digest) returns (r: Option<seq<byte>>)
      requires Valid()
      modifies this`clock, this`entries, this`list
      ensures Valid()
      ensures r.Some? <==> Holds(old(list), h)
      ensures r.Some? ==> r.value == old(list)[Find(old(list), h)].data && list == Used(old(list), h)
      ensures r.None? ==> list == old(list)
    {
      HeldRepresents(blake, maxBytes, usedBytes, clock, entries, list, h);
      if h in entries {
        TouchRepresents(blake, maxBytes, usedBytes, clock, entries, list, h);
        Touch(h);
        return Some(entries[h].data);
      }
      r := None;
    }

    method EvictToFit(incoming: nat)
      requires Valid()
      modifies this`usedBytes, this`entries, this`list
      ensures Valid() && list == MakeRoom(old(list), incoming, maxBytes)
    {
      hide Represents;
      while usedBytes + incoming > maxBytes && entries != map[]
        invariant Valid()
        invariant MakeRoom(list, incoming, maxBytes) == MakeRoom(old(list), incoming, maxBytes)
        decreases |list|
      {
        HeldRepresents(blake, maxBytes, usedBytes, clock, entries, list, blake([]));
        SomeOldest(entries);
        var oldest :| oldest in entries && forall h | h in entries :: entries[oldest].lastUsed <= entries[h].lastUsed;
        EvictRepresents(blake, maxBytes, usedBytes, clock, entries, list, oldest);
        usedBytes := usedBytes - |entries[oldest].data|;
        entries := entries - {oldest};
        list := list[1..];
      }
      HeldRepresents(blake, maxBytes, usedBytes, clock, entries, list, blake([]));
    }

    /** The chunk's address; the bytes are kept unless they could never fit. */
    method Insert(data: seq<byte>) returns (h: Digest)
      requires Valid()
      modifies this`usedBytes, this`clock, this`entries, this`list
      ensures Valid() && h == blake(data)
      ensures list == Inserted(old(list), Stored(h, data), maxBytes)
      ensures |data| <= maxBytes ==> Holds(list, h) && list[|list| - 1].hash == h
    {
      hide Represents, Size, MakeRoom;
      h := blake(data);
      if |data| <= maxBytes {
        InsertedIsHeld(list, Stored(h, data), maxBytes);
      }
      HeldRepresents(blake, maxBytes, usedBytes, clock, entries, list, h);
      if h in entries {
        Touch(h);
        return;
      }
      if |data| > maxBytes {
        return;
      }
      MakeRoomFits(list, |data|, maxBytes, h);
      EvictToFit(|data|);
      HeldRepresents(blake, maxBytes, usedBytes, clock, entries, list, h);
      AddRepresents(blake, maxBytes, usedBytes, clock, entries, list, Stored(h, data));
      usedBytes := usedBytes + |data|;
      clock := clock + 1;
      entries := entries[h := Entry(data, clock)];
      list := list + [Stored(h, data)];
    }
  }

  lemma {:induction false} SomeOldest(entries: map<Digest, Entry>)
    requires entries != map[]
    ensures exists oldest ::
              oldest in entries && forall h | h in entries :: entries[oldest].lastUsed <= entries[h].lastUsed
    decreases |entries|
  {
    var g: Digest :| g in entries;
    var others := entries - {g};
    if others == map[] {
      forall h | h in entries
        ensures h == g
      {
        assert h != g ==> h in others;
      }
    } else {
      SomeOldest(others);
      var o: Digest :| o in others && forall h | h in others :: others[o].lastUsed <= others[h].lastUsed;
      var best := if entries[g].lastUsed <= entries[o].lastUsed then g else o;
      forall h | h in entries
        ensures entries[best].lastUsed <= entries[h].lastUsed
      {
        assert h != g ==> h in others && others[o].lastUsed <= others[h].lastUsed;
      }
      assert best in entries;
    }
  }

  lemma {:induction false} MakeRoomFits(list: seq<Stored>, incoming: nat, maxBytes: nat, h: Digest)
    requires incoming <= maxBytes
    ensures Size(MakeRoom(list, incoming, maxBytes)) + incoming <= maxBytes
    ensures !Holds(list, h) ==> !Holds(MakeRoom(list, incoming, maxBytes), h)
  {
    var k := MakeRoomIsShortest(list, incoming, maxBytes);
  }
}
