/**
 * Why the boundaries follow the content: the 32-bit rolling hash forgets everything but the last 32 bytes,
 * and once two files share a boundary and everything after it they share every later chunk.
 */
module ContentDefined {
  import opened Bytes
  import opened Chunker
  import opened Masks
  import opened Numbers

  lemma Pow2Of32()
    ensures Pow2(32) == WORD
  {
    assert Pow2(8) == 256;
    Pow2Plus(8, 8);
    Pow2Plus(16, 16);
  }

  lemma {:induction false} Pow2Monotone(a: nat, b: nat)
    requires a < b
    ensures Pow2(a) < Pow2(b)
  {
    if a + 1 < b {
      Pow2Monotone(a, b - 1);
    }
  }

  // ------------------------------------------------------------------
  // What the hash is
  // ------------------------------------------------------------------

  /** Every byte by its gear, doubled once for each byte after it. */
  function WeightedSum(gear: Gear, s: seq<byte>): nat {
    if s == [] then 0 else gear(s[0]) * Pow2(|s| - 1) + WeightedSum(gear, s[1..])
  }

  lemma {:induction false} WeightedSnoc(gear: Gear, s: seq<byte>, b: byte)
    ensures WeightedSum(gear, s + [b]) == 2 * WeightedSum(gear, s) + gear(b)
  {
    var all := s + [b];
    if s == [] {
      assert all == [b] && all[1..] == [];
      assert Pow2(0) == 1;
    } else {
      WeightedSnoc(gear, s[1..], b);
      assert all[1..] == s[1..] + [b];
      Twice(gear(s[0]), Pow2(|s| - 1), Pow2(|s|));
    }
  }

  lemma Twice(g: nat, p: nat, q: nat)
    requires q == 2 * p
    ensures g * q == 2 * (g * p)
  {
    assert g * (2 * p) == 2 * (g * p);
  }

  /** The rolling hash of a string is that sum, in 32 bits, on top of the hash it started from. */
  lemma {:induction false} RollIsWeightedSum(gear: Gear, h: u32, s: seq<byte>)
    ensures RollAll(gear, h, s) == (h * Pow2(|s|) + WeightedSum(gear, s)) % WORD
  {
    hide RollAll, WeightedSum, Pow2;
    if s == [] {
      RollNothing(gear, h);
    } else {
      var rest, last := s[..|s| - 1], s[|s| - 1];
      RollIsWeightedSum(gear, h, rest);
      assert s == rest + [last];
      RollSnoc(gear, h, rest, last);
      WeightedSnoc(gear, rest, last);
      Pow2Doubles(|s|);
      Twice(h, Pow2(|rest|), Pow2(|s|));
      NextWrap(h * Pow2(|rest|), WeightedSum(gear, rest), gear(last));
    }
  }

  lemma RollNothing(gear: Gear, h: u32)
    ensures RollAll(gear, h, []) == h == (h * Pow2(0) + WeightedSum(gear, [])) % WORD
  {
  }

  lemma NextWrap(a: nat, w: nat, g: nat)
    ensures (2 * ((a + w) % WORD) + g) % WORD == (2 * a + (2 * w + g)) % WORD
  {
    WrapEarlier(a + w, g);
  }

  lemma RollSnoc(gear: Gear, h: u32, s: seq<byte>, b: byte)
    ensures RollAll(gear, h, s + [b]) == (2 * RollAll(gear, h, s) + gear(b)) % WORD
  {
    assert (s + [b])[..|s|] == s;
  }

  /** Wrapping before a doubling or only after it is the same. */
  lemma WrapEarlier(n: nat, g: nat)
    ensures (2 * (n % WORD) + g) % WORD == (2 * n + g) % WORD
  {
    SameWrap(2 * (n % WORD) + g, 2 * n + g, 2 * (n / WORD));
  }

  lemma SameWrap(a: int, b: int, k: int)
    requires b == a + k * WORD
    ensures a % WORD == b % WORD
  {
  }

  /** Two numbers wrap to the same word exactly when their difference wraps to zero. */
  lemma WrapTogether(a: int, b: int)
    ensures a % WORD == b % WORD <==> (a - b) % WORD == 0
  {
    if a % WORD == b % WORD {
      SameWrap(0, a - b, a / WORD - b / WORD);
    }
    if (a - b) % WORD == 0 {
      SameWrap(b, a, (a - b) / WORD);
    }
  }

  lemma {:induction false} WeightedJoin(gear: Gear, a: seq<byte>, b: seq<byte>)
    ensures WeightedSum(gear, a + b) == WeightedSum(gear, a) * Pow2(|b|) + WeightedSum(gear, b)
  {
    if b == [] {
      assert a + b == a && Pow2(0) == 1;
    } else {
      var rest, last := b[..|b| - 1], b[|b| - 1];
      WeightedJoin(gear, a, rest);
      assert a + b == (a + rest) + [last] && b == rest + [last];
      WeightedSnoc(gear, a + rest, last);
      WeightedSnoc(gear, rest, last);
      Twice(WeightedSum(gear, a), Pow2(|rest|), Pow2(|b|));
    }
  }

  /** The byte just read decides: two bytes leave one hash exactly when they have one gear. */
  lemma LastByteTells(gear: Gear, h: u32, s: seq<byte>, a: byte, b: byte)
    ensures RollAll(gear, h, s + [a]) == RollAll(gear, h, s + [b]) <==> gear(a) == gear(b)
  {
    ByteTells(gear, h, s, a, b, []);
    assert s + [a] + [] == s + [a] && s + [b] + [] == s + [b];
    assert Pow2(0) == 1;
    WrapTogether(gear(a), gear(b));
  }

  /** A byte read some places back tells by its gear, doubled as often as bytes have come since. */
  lemma ByteTells(gear: Gear, h: u32, s: seq<byte>, a: byte, b: byte, since: seq<byte>)
    ensures RollAll(gear, h, s + [a] + since) == RollAll(gear, h, s + [b] + since)
       <==> ((gear(a) - gear(b)) * Pow2(|since|)) % WORD == 0
  {
    hide RollAll, WeightedSum, Pow2;
    var x, y := s + [a] + since, s + [b] + since;
    RollIsWeightedSum(gear, h, x);
    RollIsWeightedSum(gear, h, y);
    WeightedJoin(gear, s + [a], since);
    WeightedJoin(gear, s + [b], since);
    WeightedSnoc(gear, s, a);
    WeightedSnoc(gear, s, b);
    Difference(2 * WeightedSum(gear, s), gear(a), gear(b), Pow2(|since|));
    WrapTogether(h * Pow2(|x|) + WeightedSum(gear, x), h * Pow2(|y|) + WeightedSum(gear, y));
  }

  lemma Difference(n: int, a: int, b: int, p: int)
    ensures (n + a) * p - (n + b) * p == (a - b) * p
  {
  }

  lemma RollDouble(gear: Gear, h: u32, g: u32, b: byte) returns (j: int)
    ensures Roll(gear, h, b) - Roll(gear, g, b) == 2 * (h - g) + j * WORD
  {
    var p, q := (2 * h + gear(b)) / WORD, (2 * g + gear(b)) / WORD;
    j := q - p;
  }

  lemma DoubleDifference(d: int, p: int, k: int, j: int)
    ensures 2 * (d * p + k * WORD) + j * WORD == d * (2 * p) + (2 * k + j) * WORD
  {
    assert d * (2 * p) == 2 * (d * p);
  }

  /** Up to wrapping, every byte scanned doubles the difference between two hashes. */
  lemma {:induction false} RollDifference(gear: Gear, h: u32, g: u32, s: seq<byte>) returns (k: int)
    ensures RollAll(gear, h, s) - RollAll(gear, g, s) == (h - g) * Pow2(|s|) + k * WORD
  {
    if s == [] {
      k := 0;
    } else {
      var rest, last := s[..|s| - 1], s[|s| - 1];
      var k0 := RollDifference(gear, h, g, rest);
      var j := RollDouble(gear, RollAll(gear, h, rest), RollAll(gear, g, rest), last);
      k := 2 * k0 + j;
      hide Roll;
      DoubleDifference(h - g, Pow2(|rest|), k0, j);
    }
  }

  /** After 32 bytes the hash no longer depends on what came before them. */
  lemma RollForgets(gear: Gear, h: u32, g: u32, s: seq<byte>)
    requires |s| >= 32
    ensures RollAll(gear, h, s) == RollAll(gear, g, s)
  {
    var k := RollDifference(gear, h, g, s);
    Pow2Plus(32, |s| - 32);
    Pow2Of32();
    var m := (h - g) * Pow2(|s| - 32);
    assert (h - g) * Pow2(|s|) == m * WORD;
    assert RollAll(gear, h, s) - RollAll(gear, g, s) == (m + k) * WORD;
  }

  /** 32 is exact: after fewer bytes two hashes that differed by one still differ, whatever the bytes. */
  lemma RollRemembers(gear: Gear, h: u32, s: seq<byte>)
    requires |s| < 32 && h + 1 < WORD
    ensures RollAll(gear, h + 1, s) != RollAll(gear, h, s)
  {
    var k := RollDifference(gear, h + 1, h, s);
    Pow2Monotone(|s|, 32);
    Pow2Of32();
  }

  lemma {:induction false} RollJoin(gear: Gear, h: u32, a: seq<byte>, b: seq<byte>)
    ensures RollAll(gear, h, a + b) == RollAll(gear, RollAll(gear, h, a), b)
  {
    if b == [] {
      assert a + b == a;
    } else {
      RollJoin(gear, h, a, b[..|b| - 1]);
      assert (a + b)[..|a + b| - 1] == a + b[..|b| - 1];
    }
  }

  /** Two scans from different starts agree once both have consumed the same 32 bytes. */
  lemma ScansAgree(gear: Gear, a: seq<byte>, b: seq<byte>, window: seq<byte>)
    requires |window| >= 32
    ensures RollAll(gear, 0, a + window) == RollAll(gear, 0, b + window)
  {
    RollJoin(gear, 0, a, window);
    RollJoin(gear, 0, b, window);
    RollForgets(gear, RollAll(gear, 0, a), RollAll(gear, 0, b), window);
  }

  /** Where a scan's hash stands after byte `i`, from the last 32 bytes alone. */
  lemma HashOfWindow(gear: Gear, rest: seq<byte>, i: nat)
    requires MIN_CHUNK_BYTES + 31 <= i < |rest|
    ensures RollAll(gear, 0, rest[MIN_CHUNK_BYTES..i + 1]) == RollAll(gear, 0, rest[i - 31..i + 1])
  {
    hide RollAll;
    var before, window := rest[MIN_CHUNK_BYTES..i - 31], rest[i - 31..i + 1];
    assert rest[MIN_CHUNK_BYTES..i + 1] == before + window && window == [] + window;
    ScansAgree(gear, before, [], window);
  }

  /**
   * And so they cut alike: two scans that have read the same 32 bytes, and are on the same side of the average
   * size, stop at that byte both or neither, whatever else the two inputs hold.
   */
  lemma StopsAgree(c: Cutter, x: seq<byte>, y: seq<byte>, i: nat, j: nat)
    requires MIN_CHUNK_BYTES + 31 <= i < |x| && MIN_CHUNK_BYTES + 31 <= j < |y|
    requires x[i - 31..i + 1] == y[j - 31..j + 1] && (i < AVG_CHUNK_BYTES <==> j < AVG_CHUNK_BYTES)
    ensures Stops(c, x, i) <==> Stops(c, y, j)
  {
    hide RollAll;
    HashOfWindow(c.gear, x, i);
    HashOfWindow(c.gear, y, j);
  }

  // ------------------------------------------------------------------
  // Shared suffixes
  // ------------------------------------------------------------------

  /** The first `n` chunks of the input end at offset `at`. */
  ghost predicate CutsAt(c: Cutter, data: seq<byte>, n: nat, at: nat) {
    n <= |Pieces(c, data)| && |Concat(Pieces(c, data)[..n])| == at
  }

  /** The chunks from a boundary on are the chunks of the bytes from there on. */
  lemma {:induction false} ChunkingResumes(c: Cutter, data: seq<byte>, n: nat, at: nat)
    requires CutsAt(c, data, n, at)
    ensures at <= |data| && Pieces(c, data)[n..] == Pieces(c, data[at..])
  {
    if n == 0 {
      assert data[0..] == data;
    } else {
      hide Cut;
      var end := Cut(c, data);
      var pieces, rest := Pieces(c, data), data[end..];
      assert pieces[1..] == Pieces(c, rest);
      assert pieces[..n][1..] == Pieces(c, rest)[..n - 1];
      ChunkingResumes(c, rest, n - 1, at - end);
      assert rest[at - end..] == data[at..];
      assert pieces[n..] == pieces[1..][n - 1..];
    }
  }

  /** A chunk past a boundary is placed relative to that boundary. */
  lemma PlacedPast(address: Addresser, pieces: seq<seq<byte>>, n: nat, i: nat)
    requires n + i < |pieces|
    ensures |Placed(address, pieces, 0)| == |pieces|
    ensures Placed(address, pieces, 0)[n + i]
         == Chunk(address(pieces[n..][i]), |Concat(pieces[..n])| + |Concat(pieces[n..][..i])|, |pieces[n..][i]|)
  {
    PlacedAt(address, pieces, 0, n + i);
    assert pieces[..n + i] == pieces[..n] + pieces[n..][..i];
    ConcatBoth(pieces[..n], pieces[n..][..i]);
  }

  /**
   * When two files share a suffix and both have a boundary at its start, every later chunk has the same
   * address and the same length in both, in the same order; only the offsets differ, by the same amount.
   */
  lemma SharedSuffixSharesChunks(c: Cutter, address: Addresser, x: seq<byte>, y: seq<byte>, suffix: seq<byte>,
                                 n: nat, m: nat, i: nat)
    requires CutsAt(c, x + suffix, n, |x|) && CutsAt(c, y + suffix, m, |y|)
    ensures |Pieces(c, x + suffix)| - n == |Pieces(c, y + suffix)| - m
    ensures n + i < |Pieces(c, x + suffix)| ==>
              var a := Placed(address, Pieces(c, x + suffix), 0);
              var b := Placed(address, Pieces(c, y + suffix), 0);
              && |a| == |Pieces(c, x + suffix)| && |b| == |Pieces(c, y + suffix)|
              && a[n + i].hash == b[m + i].hash && a[n + i].length == b[m + i].length
              && a[n + i].offset - |x| == b[m + i].offset - |y|
  {
    var p, q := Pieces(c, x + suffix), Pieces(c, y + suffix);
    assert p[n..] == q[m..] by {
      ChunkingResumes(c, x + suffix, n, |x|);
      ChunkingResumes(c, y + suffix, m, |y|);
      assert (x + suffix)[|x|..] == suffix && (y + suffix)[|y|..] == suffix;
    }
    assert |p| - n == |p[n..]| && |q| - m == |q[m..]|;
    if n + i < |p| {
      PlacedPast(address, p, n, i);
      PlacedPast(address, q, m, i);
    }
  }
}
