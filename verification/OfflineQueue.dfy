/**
 * The offline mutation queue: everything enqueued while a device was away, sent on reconnecting as one newest
 * record per id, in clock order. Leaving the others out must not change what anyone ends up with.
 */
module OfflineQueue {
  import opened Hlc
  import opened Orders
  import opened Wrappers

  type RecordId(==, !new)

  /** What a mutation carries; a deletion is one of its values. */
  type Body(==, !new)

  datatype Record = Record(recordId: RecordId, hlc: Stamp, body: Body)

  // ------------------------------------------------------------------
  // Last writer wins
  // ------------------------------------------------------------------

  /** `mergeLww`: an incoming record wins only if it is strictly later. */
  function MergeLww(current: Option<Record>, incoming: Record): Record {
    if current.None? then incoming
    else if Compare(incoming.hlc, current.value.hlc) > 0 then incoming
    else current.value
  }

  type Registers = map<RecordId, Record>

  function Lookup(m: Registers, id: RecordId): Option<Record> {
    if id in m then Some(m[id]) else None
  }

  /** Records merged one after the other. */
  function Fold(m: Registers, records: seq<Record>): Registers {
    if records == [] then m
    else
      var before, r := Fold(m, records[..|records| - 1]), records[|records| - 1];
      before[r.recordId := MergeLww(Lookup(before, r.recordId), r)]
  }

  /** `r` stands for `id` before the merge, or is one of the records. */
  ghost predicate Candidate(m: Registers, records: seq<Record>, id: RecordId, r: Record) {
    (id in m && r == m[id]) || (r in records && r.recordId == id)
  }

  ghost predicate Wins(m: Registers, records: seq<Record>, id: RecordId, r: Record) {
    Candidate(m, records, id, r) && forall c | Candidate(m, records, id, c) :: Compare(c.hlc, r.hlc) <= 0
  }

  /** No two mutations carry one stamp. */
  ghost predicate HlcIdentifies(m: Registers, records: seq<Record>) {
    forall a, b | (a in m.Values || a in records) && (b in m.Values || b in records) && a.hlc == b.hlc :: a == b
  }

  lemma CandidateSnoc(m: Registers, records: seq<Record>, last: Record, id: RecordId, r: Record)
    ensures Candidate(m, records + [last], id, r)
       <==> Candidate(m, records, id, r) || (r == last && last.recordId == id)
  {
  }

  /** What a fold leaves is, for each id, a latest of what there was and what came. */
  lemma {:induction false} FoldWins(m: Registers, records: seq<Record>, id: RecordId)
    ensures id in Fold(m, records) <==> exists r :: Candidate(m, records, id, r)
    ensures id in Fold(m, records) ==> Wins(m, records, id, Fold(m, records)[id])
  {
    if records == [] {
      if id in m {
        assert Candidate(m, records, id, m[id]);
        CompareIsTotalOrder(m[id].hlc, m[id].hlc, m[id].hlc);
      }
    } else {
      var rest, last := records[..|records| - 1], records[|records| - 1];
      assert records == rest + [last];
      FoldWins(m, rest, id);
      forall r
        ensures Candidate(m, records, id, r) <==> Candidate(m, rest, id, r) || (r == last && last.recordId == id)
      {
        CandidateSnoc(m, rest, last, id, r);
      }
      var before := Fold(m, rest);
      if id == last.recordId {
        LaterWins(m, rest, last, before);
      } else {
        assert Fold(m, records)[id := last] == before[last.recordId := Fold(m, records)[last.recordId]][id := last];
        hide Wins, Candidate;
      }
    }
  }

  lemma LaterWins(m: Registers, rest: seq<Record>, last: Record, before: Registers)
    requires last.recordId in before ==> Wins(m, rest, last.recordId, before[last.recordId])
    requires last.recordId in before <==> exists r :: Candidate(m, rest, last.recordId, r)
    ensures Wins(m, rest + [last], last.recordId, MergeLww(Lookup(before, last.recordId), last))
    ensures Candidate(m, rest + [last], last.recordId, last)
  {
    var id := last.recordId;
    var winner := MergeLww(Lookup(before, id), last);
    CandidateSnoc(m, rest, last, id, last);
    CandidateSnoc(m, rest, last, id, winner);
    forall c | Candidate(m, rest + [last], id, c)
      ensures Compare(c.hlc, winner.hlc) <= 0
    {
      CandidateSnoc(m, rest, last, id, c);
      CompareIsTotalOrder(c.hlc, if id in before then before[id].hlc else last.hlc, last.hlc);
      CompareIsTotalOrder(if id in before then before[id].hlc else last.hlc, last.hlc, last.hlc);
      CompareIsTotalOrder(last.hlc, last.hlc, last.hlc);
    }
  }

  // ------------------------------------------------------------------
  // Sorting by clock
  // ------------------------------------------------------------------

  predicate Earlier(a: Record, b: Record) {
    Compare(a.hlc, b.hlc) < 0
  }

  /** `sortByHlc`: stable, oldest first. */
  function SortByHlc(records: seq<Record>): seq<Record> {
    Sort(Earlier, records)
  }

  lemma EarlierRanks()
    ensures Asymmetric(Earlier) && Ranks(Earlier)
  {
    forall x: Record, y: Record
      ensures !(Earlier(x, y) && Earlier(y, x))
    {
      CompareIsTotalOrder(x.hlc, y.hlc, x.hlc);
    }
    forall x: Record, y: Record, z: Record | !Earlier(y, x) && !Earlier(z, y)
      ensures !Earlier(z, x)
    {
      CompareIsTotalOrder(x.hlc, y.hlc, z.hlc);
      CompareIsTotalOrder(y.hlc, z.hlc, x.hlc);
      CompareIsTotalOrder(z.hlc, x.hlc, y.hlc);
    }
  }

  /** The same records in clock order, and those with one stamp in whatever order they came. */
  lemma SortKeeps(records: seq<Record>, came: (Record, Record) -> bool)
    ensures multiset(SortByHlc(records)) == multiset(records)
    ensures InOrder(Earlier, SortByHlc(records))
    ensures Ascending(came, records) ==> AscendingThen(Earlier, came, SortByHlc(records))
  {
    EarlierRanks();
    hide Earlier, Sort;
    SortPermutes(Earlier, records);
    SortOrders(Earlier, records);
    if Ascending(came, records) {
      SortIsStable(Earlier, came, records);
    }
  }

  // ------------------------------------------------------------------
  // The order in which ids came
  // ------------------------------------------------------------------

  /** Where an id is first mentioned. */
  function Mention(items: seq<Record>, id: RecordId): (i: nat)
    ensures i <= |items|
    ensures i < |items| ==> items[i].recordId == id
    ensures forall j | 0 <= j < i :: items[j].recordId != id
  {
    if items == [] || items[0].recordId == id then 0 else 1 + Mention(items[1..], id)
  }

  function MentionedBefore(items: seq<Record>): (Record, Record) -> bool {
    (a: Record, b: Record) => Mention(items, a.recordId) < Mention(items, b.recordId)
  }

  /** The clock decides, and of two records with one stamp the mention of their ids. */
  function DrainedBefore(items: seq<Record>): (Record, Record) -> bool {
    (a: Record, b: Record) => Then(Earlier, MentionedBefore(items), a, b)
  }

  lemma MentionStays(items: seq<Record>, last: Record, id: RecordId)
    requires Mention(items, id) < |items|
    ensures Mention(items + [last], id) == Mention(items, id)
  {
    assert (items + [last])[Mention(items, id)].recordId == id;
  }

  lemma MentionedNow(items: seq<Record>, last: Record)
    requires forall x | x in items :: x.recordId != last.recordId
    ensures Mention(items + [last], last.recordId) == |items|
  {
    forall j | 0 <= j < |items|
      ensures (items + [last])[j].recordId != last.recordId
    {
      assert items[j] in items;
    }
    assert (items + [last])[|items|].recordId == last.recordId;
  }

  lemma DrainedIsAscending(items: seq<Record>, out: seq<Record>)
    ensures AscendingThen(Earlier, MentionedBefore(items), out) <==> Ascending(DrainedBefore(items), out)
  {
    hide Then, MentionedBefore;
  }

  lemma DrainedBeforeIsAsymmetric(items: seq<Record>)
    ensures Asymmetric(DrainedBefore(items)) && Asymmetric(MentionedBefore(items))
  {
    EarlierRanks();
    hide Mention, Ranks, Compare;
    var mentioned := MentionedBefore(items);
    forall x: Record, y: Record
      ensures !(mentioned(x, y) && mentioned(y, x)) && !(DrainedBefore(items)(x, y) && DrainedBefore(items)(y, x))
    {
      assert !(Earlier(x, y) && Earlier(y, x));
      assert DrainedBefore(items)(x, y) <==> Then(Earlier, mentioned, x, y);
      assert DrainedBefore(items)(y, x) <==> Then(Earlier, mentioned, y, x);
    }
  }

  // ------------------------------------------------------------------
  // The queue
  // ------------------------------------------------------------------

  ghost predicate OnePerId(records: seq<Record>) {
    forall i, j | 0 <= i < j < |records| :: records[i].recordId != records[j].recordId
  }

  /** One record for each id enqueued: a latest one, and of several the first that came. */
  ghost predicate Compacts(items: seq<Record>, out: seq<Record>) {
    && OnePerId(out)
    && (forall r | r in out :: r in items && Arrived(items, r))
    && (forall x | x in items :: Covered(out, x))
  }

  /** When `r` came, nothing enqueued before it under its id was as late. */
  ghost predicate Arrived(items: seq<Record>, r: Record) {
    exists i :: 0 <= i < |items| && items[i] == r && OlderBefore(items, i)
  }

  ghost predicate OlderBefore(items: seq<Record>, i: nat)
    requires i < |items|
  {
    forall j | 0 <= j < i && items[j].recordId == items[i].recordId :: Compare(items[j].hlc, items[i].hlc) < 0
  }

  lemma ArrivedStays(items: seq<Record>, r: Record, last: Record)
    requires Arrived(items, r)
    ensures Arrived(items + [last], r)
  {
    hide Compare;
    var i :| 0 <= i < |items| && items[i] == r && OlderBefore(items, i);
    assert OlderBefore(items + [last], i);
  }

  lemma ArrivesNow(items: seq<Record>, r: Record, latest: Option<Record>)
    requires forall x | x in items && x.recordId == r.recordId :: latest.Some? && Compare(x.hlc, latest.value.hlc) <= 0
    requires latest.Some? ==> Compare(r.hlc, latest.value.hlc) > 0
    ensures Arrived(items + [r], r)
  {
    forall j | 0 <= j < |items| && items[j].recordId == r.recordId
      ensures Compare(items[j].hlc, r.hlc) < 0
    {
      assert items[j] in items;
      CompareIsTotalOrder(r.hlc, items[j].hlc, latest.value.hlc);
      CompareIsTotalOrder(r.hlc, latest.value.hlc, r.hlc);
    }
    assert OlderBefore(items + [r], |items|);
  }

  /** One of the records has `x`'s id and is no earlier. */
  ghost predicate Covered(out: seq<Record>, x: Record) {
    exists r :: r in out && r.recordId == x.recordId && Compare(x.hlc, r.hlc) <= 0
  }

  lemma CoveredBy(out: seq<Record>, x: Record) returns (r: Record)
    requires Covered(out, x)
    ensures r in out && r.recordId == x.recordId && Compare(x.hlc, r.hlc) <= 0
  {
    r :| r in out && r.recordId == x.recordId && Compare(x.hlc, r.hlc) <= 0;
  }

  class OfflineQueue {
    var items: seq<Record>

    constructor ()
      ensures items == []
    {
      items := [];
    }

    method Enqueue(r: Record)
      modifies this
      ensures items == old(items) + [r]
    {
      items := items + [r];
    }

    /** A pass over the items with a map, whose keys stay in the order they first came. */
    method Compacted() returns (out: seq<Record>)
      ensures Compacts(items, out) && Ascending(MentionedBefore(items), out)
    {
      var newest: Registers := map[];
      var keys: seq<RecordId> := [];
      assert InMentionOrder(items[..0], keys);
      hide Compare, Newest, InMentionOrder, Compacts, MentionedBefore;
      for i := 0 to |items|
        invariant Newest(items[..i], newest)
        invariant InMentionOrder(items[..i], keys) && forall k :: k in keys <==> k in newest
      {
        var r := items[i];
        assert items[..i + 1] == items[..i] + [r];
        var current := Lookup(newest, r.recordId);
        NewestAfter(items[..i], newest, r);
        MentionOrderStays(items[..i], newest, keys, r);
        if current.None? || Compare(r.hlc, current.value.hlc) > 0 {
          if current.None? {
            keys := keys + [r.recordId];
          }
          newest := newest[r.recordId := r];
        }
      }
      assert items[..|items|] == items;
      out := seq(|keys|, j requires 0 <= j < |keys| => newest[keys[j]]);
      CompactsBy(items, newest, keys, out);
    }

    /** `peek`: the queue stays as it is. */
    method Peek() returns (out: seq<Record>)
      ensures Compacts(items, out) && Ascending(DrainedBefore(items), out)
    {
      var compacted := Compacted();
      out := SortByHlc(compacted);
      SortedCompacts(items, compacted);
    }

    /** `drain`: and the queue is empty after it. */
    method Drain() returns (out: seq<Record>)
      modifies this
      ensures Compacts(old(items), out) && Ascending(DrainedBefore(old(items)), out)
      ensures items == []
    {
      var compacted := Compacted();
      out := SortByHlc(compacted);
      SortedCompacts(items, compacted);
      items := [];
    }
  }

  /** The map has, for each id so far, the first of the latest records. */
  ghost predicate Newest(done: seq<Record>, newest: Registers) {
    && (forall k | k in newest :: newest[k] in done && newest[k].recordId == k && Arrived(done, newest[k]))
    && (forall x | x in done :: x.recordId in newest && Compare(x.hlc, newest[x.recordId].hlc) <= 0)
  }

  lemma NewestAfter(done: seq<Record>, newest: Registers, r: Record)
    requires Newest(done, newest)
    ensures var current := Lookup(newest, r.recordId);
            var later := current.None? || Compare(r.hlc, current.value.hlc) > 0;
            Newest(done + [r], if later then newest[r.recordId := r] else newest)
  {
    hide Arrived, Compare;
    var current := Lookup(newest, r.recordId);
    forall k | k in newest
      ensures Arrived(done + [r], newest[k])
    {
      ArrivedStays(done, newest[k], r);
    }
    if current.None? || Compare(r.hlc, current.value.hlc) > 0 {
      ArrivesNow(done, r, current);
      forall x | x in done + [r]
        ensures x.recordId == r.recordId ==> Compare(x.hlc, r.hlc) <= 0
      {
        CompareIsTotalOrder(r.hlc, r.hlc, r.hlc);
        if x in done && x.recordId == r.recordId {
          CompareIsTotalOrder(x.hlc, current.value.hlc, r.hlc);
          CompareIsTotalOrder(current.value.hlc, r.hlc, r.hlc);
        }
      }
    }
  }

  ghost predicate InMentionOrder(items: seq<Record>, keys: seq<RecordId>) {
    && (forall k | k in keys :: Mention(items, k) < |items|)
    && (forall a, b | 0 <= a < b < |keys| :: Mention(items, keys[a]) < Mention(items, keys[b]))
  }

  lemma MentionOrderStays(done: seq<Record>, newest: Registers, keys: seq<RecordId>, last: Record)
    requires InMentionOrder(done, keys) && Newest(done, newest)
    ensures InMentionOrder(done + [last], keys)
    ensures last.recordId !in newest ==> InMentionOrder(done + [last], keys + [last.recordId])
  {
    hide Mention, Compare, Arrived;
    forall k | k in keys
      ensures Mention(done + [last], k) == Mention(done, k) < |done|
    {
      MentionStays(done, last, k);
    }
    if last.recordId !in newest {
      MentionedNow(done, last);
    }
  }

  lemma CompactsBy(items: seq<Record>, newest: Registers, keys: seq<RecordId>, out: seq<Record>)
    requires Newest(items, newest) && InMentionOrder(items, keys) && forall k :: k in keys <==> k in newest
    requires |out| == |keys| && forall j | 0 <= j < |keys| :: out[j] == newest[keys[j]]
    ensures Compacts(items, out) && Ascending(MentionedBefore(items), out)
  {
    hide Compare, Arrived, Mention;
    forall i, j | 0 <= i < j < |out|
      ensures Mention(items, out[i].recordId) < Mention(items, out[j].recordId)
    {
      assert out[i].recordId == keys[i] && out[j].recordId == keys[j];
    }
    forall x | x in items
      ensures Covered(out, x)
    {
      var j :| 0 <= j < |keys| && keys[j] == x.recordId;
      assert out[j] in out;
    }
  }

  lemma SortedCompacts(items: seq<Record>, compacted: seq<Record>)
    requires Compacts(items, compacted) && Ascending(MentionedBefore(items), compacted)
    ensures Compacts(items, SortByHlc(compacted)) && Ascending(DrainedBefore(items), SortByHlc(compacted))
  {
    var out := SortByHlc(compacted);
    hide SortByHlc, Arrived, Compare, MentionedBefore, DrainedBefore;
    SortKeeps(compacted, MentionedBefore(items));
    DrainedIsAscending(items, out);
    DrainedBeforeIsAsymmetric(items);
    PermutedMembers(out, compacted);
    SortedOnePerId(items, compacted, out);
    forall x | x in items
      ensures Covered(out, x)
    {
      var r := CoveredBy(compacted, x);
      assert r in out;
    }
    hide OnePerId, Covered;
  }

  lemma SortedOnePerId(items: seq<Record>, compacted: seq<Record>, out: seq<Record>)
    requires OnePerId(compacted) && SameMembers(out, compacted)
    requires Asymmetric(DrainedBefore(items)) && Ascending(DrainedBefore(items), out)
    ensures OnePerId(out)
  {
    hide DrainedBefore;
    forall i, j | 0 <= i < j < |out|
      ensures out[i].recordId != out[j].recordId
    {
      assert DrainedBefore(items)(out[i], out[j]) && out[i] != out[j];
      assert out[i] in compacted && out[j] in compacted;
    }
  }

  lemma OneOfEach(records: seq<Record>, a: Record, b: Record)
    requires OnePerId(records) && a in records && b in records && a.recordId == b.recordId
    ensures a == b
  {
  }

  // ------------------------------------------------------------------
  // Compaction keeps the meaning
  // ------------------------------------------------------------------

  lemma WinnerIsUnique(m: Registers, records: seq<Record>, id: RecordId, a: Record, b: Record)
    requires HlcIdentifies(m, records) && Wins(m, records, id, a) && Wins(m, records, id, b)
    ensures a == b
  {
    CompareIsTotalOrder(a.hlc, b.hlc, a.hlc);
    assert id in m ==> m[id] in m.Values;
  }

  /** A winner among the compacted records is a winner among all. */
  lemma CompactedWinnerWins(m: Registers, items: seq<Record>, out: seq<Record>, id: RecordId, r: Record)
    requires Compacts(items, out) && Wins(m, out, id, r)
    ensures Wins(m, items, id, r)
  {
    hide Arrived, Covered, OnePerId, Compare;
    forall c | Candidate(m, items, id, c)
      ensures Compare(c.hlc, r.hlc) <= 0
    {
      if c in items && c.recordId == id {
        var n := CoveredBy(out, c);
        assert Candidate(m, out, id, n);
        CompareIsTotalOrder(c.hlc, n.hlc, r.hlc);
      } else {
        assert Candidate(m, out, id, c);
      }
    }
  }

  lemma SameCandidates(m: Registers, a: seq<Record>, b: seq<Record>, id: RecordId)
    requires SameMembers(a, b)
    ensures forall r :: Candidate(m, a, id, r) <==> Candidate(m, b, id, r)
    ensures forall r :: Wins(m, a, id, r) <==> Wins(m, b, id, r)
  {
  }

  lemma CompactedCandidates(m: Registers, items: seq<Record>, out: seq<Record>, id: RecordId)
    requires Compacts(items, out)
    ensures (exists r :: Candidate(m, items, id, r)) <==> (exists r :: Candidate(m, out, id, r))
  {
    hide Arrived, Covered, OnePerId, Compare;
    if r :| Candidate(m, items, id, r) {
      if r in items && r.recordId == id {
        var n := CoveredBy(out, r);
        assert Candidate(m, out, id, n);
      } else {
        assert Candidate(m, out, id, r);
      }
    }
    if r :| Candidate(m, out, id, r) {
      assert Candidate(m, items, id, r);
    }
  }

  /**
   * Sending only the compacted records leaves every receiver with what it would have had from all of them,
   * merged in whatever order.
   */
  lemma CompactionKeepsMeaning(m: Registers, items: seq<Record>, out: seq<Record>, anyOrder: seq<Record>)
    requires Compacts(items, out) && HlcIdentifies(m, items) && multiset(anyOrder) == multiset(items)
    ensures Fold(m, out) == Fold(m, anyOrder)
  {
    hide *;
    PermutedMembers(anyOrder, items);
    var a, b := Fold(m, out), Fold(m, anyOrder);
    forall id
      ensures id in a <==> id in b
      ensures id in a ==> a[id] == b[id]
    {
      SameWinner(m, items, out, anyOrder, id);
    }
    assert a == b;
  }

  lemma SameWinner(m: Registers, items: seq<Record>, out: seq<Record>, anyOrder: seq<Record>, id: RecordId)
    requires Compacts(items, out) && HlcIdentifies(m, items) && SameMembers(anyOrder, items)
    ensures id in Fold(m, out) <==> id in Fold(m, anyOrder)
    ensures id in Fold(m, out) ==> Fold(m, out)[id] == Fold(m, anyOrder)[id]
  {
    hide Fold, Compacts, HlcIdentifies, Wins;
    FoldWins(m, out, id);
    FoldWins(m, anyOrder, id);
    SameCandidates(m, anyOrder, items, id);
    CompactedCandidates(m, items, out, id);
    if id in Fold(m, out) {
      CompactedWinnerWins(m, items, out, id, Fold(m, out)[id]);
      WinnerIsUnique(m, items, id, Fold(m, out)[id], Fold(m, anyOrder)[id]);
    }
  }

  // With no assumption at all, when the records are merged in the order they were enqueued.

  /** What merging in order leaves for an id: what was there unless something is later, else the first of the latest. */
  ghost predicate Stands(m: Registers, items: seq<Record>, id: RecordId, r: Record) {
    && (forall x | x in items && x.recordId == id :: Compare(x.hlc, r.hlc) <= 0)
    && ((id in m && r == m[id])
        || (r in items && r.recordId == id && Arrived(items, r) && (id in m ==> Compare(r.hlc, m[id].hlc) > 0)))
  }

  lemma StandsIsUnique(m: Registers, items: seq<Record>, id: RecordId, a: Record, b: Record)
    requires Stands(m, items, id, a) && Stands(m, items, id, b)
    ensures a == b
  {
    CompareIsTotalOrder(a.hlc, b.hlc, a.hlc);
    if a in items && a.recordId == id && b in items && b.recordId == id && Arrived(items, a) && Arrived(items, b) {
      ArrivedIsUnique(items, a, b);
    }
  }

  lemma ArrivedIsUnique(items: seq<Record>, a: Record, b: Record)
    requires Arrived(items, a) && Arrived(items, b) && a.recordId == b.recordId
    requires Compare(a.hlc, b.hlc) <= 0 && Compare(b.hlc, a.hlc) <= 0
    ensures a == b
  {
    CompareIsTotalOrder(a.hlc, b.hlc, a.hlc);
    var i :| 0 <= i < |items| && items[i] == a && OlderBefore(items, i);
    var j :| 0 <= j < |items| && items[j] == b && OlderBefore(items, j);
    hide Compare;
  }

  lemma StandsWithout(m: Registers, rest: seq<Record>, last: Record, id: RecordId, r: Record)
    requires id != last.recordId && Stands(m, rest, id, r)
    ensures Stands(m, rest + [last], id, r)
  {
    if r in rest && Arrived(rest, r) {
      ArrivedStays(rest, r, last);
    }
    hide Compare, Arrived;
  }

  lemma StandsWith(m: Registers, rest: seq<Record>, last: Record, current: Option<Record>)
    requires current.None? ==> last.recordId !in m && forall x | x in rest :: x.recordId != last.recordId
    requires current.Some? ==> Stands(m, rest, last.recordId, current.value)
    ensures Stands(m, rest + [last], last.recordId, MergeLww(current, last))
  {
    var winner := MergeLww(current, last);
    CompareIsTotalOrder(last.hlc, last.hlc, last.hlc);
    if winner == last && (current.None? || Compare(last.hlc, current.value.hlc) > 0) {
      ArrivesNow(rest, last, current);
      forall x | x in rest && x.recordId == last.recordId
        ensures Compare(x.hlc, last.hlc) <= 0
      {
        CompareIsTotalOrder(x.hlc, current.value.hlc, last.hlc);
        CompareIsTotalOrder(current.value.hlc, last.hlc, last.hlc);
      }
      if last.recordId in m && current.Some? {
        CompareIsTotalOrder(last.hlc, m[last.recordId].hlc, current.value.hlc);
        CompareIsTotalOrder(current.value.hlc, last.hlc, m[last.recordId].hlc);
        CompareIsTotalOrder(m[last.recordId].hlc, current.value.hlc, last.hlc);
      }
    } else if winner in rest && Arrived(rest, winner) {
      ArrivedStays(rest, winner, last);
    }
    hide Compare, Arrived;
  }

  lemma {:induction false} FoldStands(m: Registers, items: seq<Record>, id: RecordId)
    ensures id in Fold(m, items) <==> id in m || exists x :: x in items && x.recordId == id
    ensures id in Fold(m, items) ==> Stands(m, items, id, Fold(m, items)[id])
  {
    hide Arrived, Compare;
    if items == [] {
      if id in m {
        assert Stands(m, [], id, m[id]);
      }
    } else {
      var rest, last := items[..|items| - 1], items[|items| - 1];
      assert items == rest + [last];
      FoldStands(m, rest, id);
      var before := Fold(m, rest);
      assert last in items;
      if id == last.recordId {
        StandsWith(m, rest, last, Lookup(before, id));
      } else if id in before {
        StandsWithout(m, rest, last, id, before[id]);
      }
    }
  }

  lemma CompactedStands(m: Registers, items: seq<Record>, out: seq<Record>, id: RecordId, r: Record)
    requires Compacts(items, out) && Stands(m, out, id, r)
    ensures Stands(m, items, id, r)
  {
    hide Arrived, Covered, OnePerId;
    forall x | x in items && x.recordId == id
      ensures Compare(x.hlc, r.hlc) <= 0
    {
      var n := CoveredBy(out, x);
      CompareIsTotalOrder(x.hlc, n.hlc, r.hlc);
    }
    hide Compare;
  }

  /** Merged in the order they were enqueued, all records leave what the drained ones leave, ties and all. */
  lemma DrainMergesAsEnqueued(m: Registers, items: seq<Record>, out: seq<Record>)
    requires Compacts(items, out)
    ensures Fold(m, out) == Fold(m, items)
  {
    hide Fold, Compacts, Stands;
    var a, b := Fold(m, out), Fold(m, items);
    forall id
      ensures id in a <==> id in b
      ensures id in a ==> a[id] == b[id]
    {
      FoldStands(m, out, id);
      FoldStands(m, items, id);
      SameIds(items, out, id);
      if id in a {
        CompactedStands(m, items, out, id, a[id]);
        StandsIsUnique(m, items, id, a[id], b[id]);
      }
    }
    assert a == b;
  }

  lemma SameIds(items: seq<Record>, out: seq<Record>, id: RecordId)
    requires Compacts(items, out)
    ensures (exists x :: x in items && x.recordId == id) <==> (exists x :: x in out && x.recordId == id)
  {
    hide Arrived, Covered, OnePerId, Compare;
    if x :| x in items && x.recordId == id {
      var n := CoveredBy(out, x);
    }
  }

  /** Without that, the order can matter: of two mutations with one stamp the first to be merged stays. */
  lemma TiesDependOnOrder(a: Record, b: Record)
    requires a.recordId == b.recordId
    ensures Fold(map[], [a, b]) == Fold(map[], [b, a]) <==> a.hlc != b.hlc || a == b
  {
    CompareIsTotalOrder(a.hlc, b.hlc, a.hlc);
    FoldOfTwo(a, b);
    FoldOfTwo(b, a);
    assert Fold(map[], [a, b])[a.recordId] == MergeLww(Some(a), b);
    assert Fold(map[], [b, a])[a.recordId] == MergeLww(Some(b), a);
  }

  lemma FoldOfTwo(a: Record, b: Record)
    requires a.recordId == b.recordId
    ensures Fold(map[], [a, b]) == map[a.recordId := MergeLww(Some(a), b)]
  {
    assert [a, b][..1] == [a] && [a][..0] == [];
    assert Fold(map[], [a]) == map[a.recordId := a];
  }

  // ------------------------------------------------------------------
  // One answer
  // ------------------------------------------------------------------

  /** What a compaction returns is determined by what was enqueued, order and all. */
  lemma CompactionIsDetermined(items: seq<Record>, out: seq<Record>, again: seq<Record>)
    requires Compacts(items, out) && Ascending(MentionedBefore(items), out)
    requires Compacts(items, again) && Ascending(MentionedBefore(items), again)
    ensures out == again
  {
    hide Compacts, MentionedBefore, DrainedBefore;
    CompactedMembers(items, out, again);
    DrainedBeforeIsAsymmetric(items);
    AscendingIsUnique(MentionedBefore(items), out, again);
  }

  /** And so is what a drain returns, equal stamps and all. */
  lemma DrainIsDetermined(items: seq<Record>, out: seq<Record>, again: seq<Record>)
    requires Compacts(items, out) && Ascending(DrainedBefore(items), out)
    requires Compacts(items, again) && Ascending(DrainedBefore(items), again)
    ensures out == again
  {
    hide Compacts, MentionedBefore, DrainedBefore;
    CompactedMembers(items, out, again);
    DrainedBeforeIsAsymmetric(items);
    AscendingIsUnique(DrainedBefore(items), out, again);
  }

  lemma CompactedMembers(items: seq<Record>, out: seq<Record>, again: seq<Record>)
    requires Compacts(items, out) && Compacts(items, again)
    ensures SameMembers(out, again)
  {
    hide Compacts;
    forall r
      ensures r in out <==> r in again
    {
      CompactedIsLatest(items, out, again, r);
      CompactedIsLatest(items, again, out, r);
    }
  }

  lemma CompactedIsLatest(items: seq<Record>, out: seq<Record>, again: seq<Record>, r: Record)
    requires Compacts(items, out) && Compacts(items, again)
    ensures r in out ==> r in again
  {
    hide Arrived, Covered, Compare, OnePerId;
    if r in out {
      var n := CoveredBy(again, r);
      var p := CoveredBy(out, n);
      OneOfEach(out, p, r);
      ArrivedIsUnique(items, r, n);
    }
  }
}
