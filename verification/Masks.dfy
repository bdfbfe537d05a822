/**
 * Bit masks: how the two masks of the boundary test are made, and what share of all hashes passes each. Words are
 * natural numbers, taken apart bit by bit.
 */
module Masks {
  import opened Numbers

  function Pow2(n: nat): (p: nat)
    ensures p > 0
  {
    if n == 0 then 1 else 2 * Pow2(n - 1)
  }

  /** Bit `p` of `n` is set. */
  predicate Bit(n: nat, p: nat) {
    if p == 0 then n % 2 == 1 else Bit(n / 2, p - 1)
  }

  function BitCount(n: nat): nat {
    if n == 0 then 0 else BitCount(n / 2) + n % 2
  }

  /** `a & b`. */
  function And(a: nat, b: nat): nat {
    if a == 0 then 0 else 2 * And(a / 2, b / 2) + (a % 2) * (b % 2)
  }

  /** `a | b`. */
  function Or(a: nat, b: nat): nat
    decreases a + b
  {
    if a == 0 then b else if b == 0 then a else 2 * Or(a / 2, b / 2) + Max(a % 2, b % 2)
  }

  lemma {:induction false} NoBits(p: nat)
    ensures !Bit(0, p)
  {
    if p > 0 {
      NoBits(p - 1);
    }
  }

  lemma {:induction false} SomeBit(n: nat) returns (p: nat)
    requires n > 0
    ensures Bit(n, p)
  {
    if n % 2 == 1 {
      p := 0;
    } else {
      p := SomeBit(n / 2);
      p := p + 1;
    }
  }

  lemma {:induction false} AndBit(a: nat, b: nat, p: nat)
    ensures Bit(And(a, b), p) <==> Bit(a, p) && Bit(b, p)
  {
    NoBits(p);
    if a > 0 {
      assert And(a, b) / 2 == And(a / 2, b / 2) && And(a, b) % 2 == (a % 2) * (b % 2);
      if p > 0 {
        AndBit(a / 2, b / 2, p - 1);
      }
    }
  }

  lemma {:induction false} OrBit(a: nat, b: nat, p: nat)
    ensures Bit(Or(a, b), p) <==> Bit(a, p) || Bit(b, p)
    decreases p
  {
    NoBits(p);
    if a > 0 && b > 0 {
      assert Or(a, b) / 2 == Or(a / 2, b / 2) && Or(a, b) % 2 == Max(a % 2, b % 2);
      if p > 0 {
        OrBit(a / 2, b / 2, p - 1);
      }
    }
  }

  lemma {:induction false} Pow2Bit(q: nat, p: nat)
    ensures Bit(Pow2(q), p) <==> p == q
  {
    if q == 0 {
      if p > 0 {
        NoBits(p - 1);
      }
    } else {
      assert Pow2(q) / 2 == Pow2(q - 1) && Pow2(q) % 2 == 0;
      if p > 0 {
        Pow2Bit(q - 1, p - 1);
      }
    }
  }

  /** `a & b` is zero exactly when they have no bit in common. */
  lemma AndIsZero(a: nat, b: nat)
    ensures And(a, b) == 0 <==> forall p: nat :: !(Bit(a, p) && Bit(b, p))
  {
    if And(a, b) == 0 {
      forall p: nat
        ensures !(Bit(a, p) && Bit(b, p))
      {
        AndBit(a, b, p);
        NoBits(p);
      }
    } else {
      var p := SomeBit(And(a, b));
      AndBit(a, b, p);
    }
  }

  lemma OrOne(n: nat)
    ensures Or(n, Pow2(0)) == 2 * (n / 2) + 1
  {
    assert Or(n / 2, 0) == n / 2;
  }

  lemma OrHalf(n: nat, q: nat)
    requires q > 0
    ensures Or(n, Pow2(q)) == 2 * Or(n / 2, Pow2(q - 1)) + n % 2
  {
    assert Pow2(q) == 2 * Pow2(q - 1);
    assert Or(0, Pow2(q - 1)) == Pow2(q - 1);
  }

  lemma BitHalf(n: nat, p: nat)
    ensures Bit(n, p) <==> if p == 0 then n % 2 == 1 else Bit(n / 2, p - 1)
  {
  }

  lemma CountHalf(half: nat, low: nat)
    requires low < 2
    ensures BitCount(2 * half + low) == BitCount(half) + low
  {
  }

  lemma Pow2Doubles(n: nat)
    requires n > 0
    ensures Pow2(n) == 2 * Pow2(n - 1)
  {
  }

  lemma {:induction false} Pow2Plus(a: nat, b: nat)
    ensures Pow2(a + b) == Pow2(a) * Pow2(b)
  {
    if a > 0 {
      Pow2Plus(a - 1, b);
      assert Pow2(a + b) == 2 * (Pow2(a - 1) * Pow2(b));
    }
  }

  lemma Halves(n: nat)
    ensures n == 2 * (n / 2) + n % 2 && n % 2 < 2
  {
  }

  /** Setting a bit that was clear adds one to the count. */
  lemma {:induction false} SetBitCounts(n: nat, q: nat)
    requires !Bit(n, q)
    ensures BitCount(Or(n, Pow2(q))) == BitCount(n) + 1
    decreases q
  {
    hide *;
    var half, low := n / 2, n % 2;
    Halves(n);
    BitHalf(n, q);
    CountHalf(half, low);
    if q == 0 {
      OrOne(n);
      CountHalf(half, 1);
    } else {
      OrHalf(n, q);
      SetBitCounts(half, q - 1);
      CountHalf(Or(half, Pow2(q - 1)), low);
    }
  }

  /** Setting a bit keeps a word within its width. */
  lemma {:induction false} SetBitFits(n: nat, q: nat, width: nat)
    requires n < Pow2(width) && q < width
    ensures Or(n, Pow2(q)) < Pow2(width)
    decreases q
  {
    hide *;
    var half, low := n / 2, n % 2;
    Halves(n);
    Pow2Doubles(width);
    if q == 0 {
      OrOne(n);
    } else {
      OrHalf(n, q);
      SetBitFits(half, q - 1, width - 1);
    }
  }

  // ------------------------------------------------------------------
  // The masks
  // ------------------------------------------------------------------

  const WIDTH: nat := 32

  /** Where the `i`-th bit of a mask of `bits` bits goes. */
  function Position(bits: nat, i: nat): (p: nat)
    requires i < bits
    ensures p < WIDTH
  {
    Spread(i, bits);
    i * WIDTH / bits
  }

  lemma Spread(i: nat, bits: nat)
    requires i < bits
    ensures 0 <= i * WIDTH / bits < WIDTH
  {
    assert i * WIDTH < WIDTH * bits;
  }

  /** The first `n` of those bits. */
  function MaskOf(bits: nat, n: nat): nat
    requires n <= bits
  {
    if n == 0 then 0 else Or(MaskOf(bits, n - 1), Pow2(Position(bits, n - 1)))
  }

  lemma {:induction false} MaskBit(bits: nat, n: nat, p: nat)
    requires n <= bits
    ensures Bit(MaskOf(bits, n), p) <==> exists i: nat :: i < n && Position(bits, i) == p
  {
    if n == 0 {
      NoBits(p);
    } else {
      MaskBit(bits, n - 1, p);
      OrBit(MaskOf(bits, n - 1), Pow2(Position(bits, n - 1)), p);
      Pow2Bit(Position(bits, n - 1), p);
    }
  }

  /** Up to 32 bits, no two go to one place. */
  lemma PositionsDiffer(bits: nat, i: nat, j: nat)
    requires i < j < bits <= WIDTH
    ensures Position(bits, i) < Position(bits, j)
  {
    assert j * WIDTH >= i * WIDTH + bits;
    var q := i * WIDTH / bits;
    assert q * bits <= i * WIDTH;
    assert (q + 1) * bits <= j * WIDTH;
    AtLeast(j * WIDTH, bits, q + 1);
  }

  /** The bits are evenly spaced: each is where its share of the word begins, and the next a share further, rounded. */
  lemma EvenlySpaced(bits: nat, i: nat)
    requires i < bits <= WIDTH
    ensures Position(bits, i) * bits <= i * WIDTH < (Position(bits, i) + 1) * bits
    ensures i + 1 < bits ==> WIDTH / bits <= Position(bits, i + 1) - Position(bits, i) <= WIDTH / bits + 1
  {
    FloorOf(i * WIDTH, bits);
    if i + 1 < bits {
      assert (i + 1) * WIDTH == i * WIDTH + WIDTH;
      Gap(i * WIDTH, WIDTH, bits);
    }
  }

  lemma Gap(n: nat, w: nat, d: nat)
    requires d > 0
    ensures w / d <= (n + w) / d - n / d <= w / d + 1
  {
    var p, s, q := n / d, w / d, (n + w) / d;
    FloorOf(n, d);
    FloorOf(w, d);
    FloorOf(n + w, d);
    Distribute(p, s, d);
    Distribute(p + 1, s + 1, d);
    Cancel(q + 1, p + s, d);
    Cancel(p + 1 + (s + 1), q, d);
  }

  lemma Distribute(a: int, b: int, d: int)
    ensures (a + b) * d == a * d + b * d
  {
  }

  lemma FloorOf(n: nat, d: nat)
    requires d > 0
    ensures n / d * d <= n < (n / d + 1) * d
  {
  }

  lemma AtLeast(n: nat, d: nat, q: nat)
    requires d > 0 && q * d <= n
    ensures n / d >= q
  {
    assert (n / d + 1) * d > n;
    Cancel(n / d + 1, q, d);
  }

  lemma Cancel(a: int, b: int, d: nat)
    requires a * d > b * d
    ensures a > b
  {
    assert a <= b ==> (b - a) * d >= 0;
  }

  lemma NothingMasked(bits: nat)
    ensures MaskOf(bits, 0) == 0 == BitCount(0)
  {
  }

  lemma MaskNext(bits: nat, n: nat)
    requires 0 < n <= bits
    ensures MaskOf(bits, n) == Or(MaskOf(bits, n - 1), Pow2(Position(bits, n - 1)))
  {
  }

  lemma {:induction false} MaskCounts(bits: nat, n: nat)
    requires n <= bits
    ensures MaskOf(bits, n) < Pow2(WIDTH)
    ensures bits <= WIDTH ==> BitCount(MaskOf(bits, n)) == n
  {
    hide *;
    if n == 0 {
      NothingMasked(bits);
    } else {
      MaskNext(bits, n);
      MaskCounts(bits, n - 1);
      var p := Position(bits, n - 1);
      MaskBit(bits, n - 1, p);
      forall i: nat | i < n - 1 && bits <= WIDTH
        ensures Position(bits, i) != p
      {
        PositionsDiffer(bits, i, n - 1);
      }
      SetBitFits(MaskOf(bits, n - 1), p, WIDTH);
      if bits <= WIDTH {
        SetBitCounts(MaskOf(bits, n - 1), p);
      }
    }
  }

  /** Every masked bit of the hash is zero. */
  ghost predicate MaskedBitsZero(hash: nat, bits: nat) {
    forall i: nat | i < bits :: !Bit(hash, Position(bits, i))
  }

  /** `maskWithBits`: a 32-bit word, with as many bits set as it says. */
  method MaskWithBits(bits: nat) returns (mask: nat)
    ensures mask < Pow2(WIDTH) && (bits <= WIDTH ==> BitCount(mask) == bits)
    ensures forall hash: nat :: And(hash, mask) == 0 <==> MaskedBitsZero(hash, bits)
    ensures mask == MaskOf(bits, bits)
  {
    mask := 0;
    for i := 0 to bits
      invariant mask == MaskOf(bits, i)
    {
      mask := Or(mask, Pow2(Position(bits, i)));
    }
    MaskCounts(bits, bits);
    forall hash: nat
      ensures And(hash, mask) == 0 <==> MaskedBitsZero(hash, bits)
    {
      MaskTests(bits, hash);
    }
  }

  /** `hash & mask` is zero exactly when every one of the mask's bits is zero in the hash. */
  lemma MaskTests(bits: nat, hash: nat)
    ensures And(hash, MaskOf(bits, bits)) == 0 <==> MaskedBitsZero(hash, bits)
  {
    hide Position, Bit, MaskOf, And;
    var mask := MaskOf(bits, bits);
    AndIsZero(hash, mask);
    if MaskedBitsZero(hash, bits) {
      forall p: nat
        ensures !(Bit(hash, p) && Bit(mask, p))
      {
        MaskBit(bits, bits, p);
        if Bit(mask, p) {
          var i: nat :| i < bits && Position(bits, i) == p;
          assert !Bit(hash, Position(bits, i));
        }
      }
    } else {
      var i: nat :| i < bits && Bit(hash, Position(bits, i));
      MaskBit(bits, bits, Position(bits, i));
    }
  }

  // ------------------------------------------------------------------
  // How many hashes pass
  // ------------------------------------------------------------------

  /** How many words below `n` have no bit in common with the mask. */
  function Passing(n: nat, mask: nat): nat {
    if n == 0 then 0 else Passing(n - 1, mask) + if And(n - 1, mask) == 0 then 1 else 0
  }

  lemma AndPair(h: nat, mask: nat)
    ensures And(2 * h, mask) == 2 * And(h, mask / 2)
    ensures And(2 * h + 1, mask) == 2 * And(h, mask / 2) + mask % 2
  {
  }

  lemma PassingNext(n: nat, mask: nat)
    ensures Passing(n + 1, mask) == Passing(n, mask) + if And(n, mask) == 0 then 1 else 0
  {
  }

  lemma {:induction false} PassingPairs(n: nat, mask: nat)
    ensures Passing(2 * n, mask) == Passing(n, mask / 2) * if mask % 2 == 0 then 2 else 1
  {
    hide And;
    if n > 0 {
      var h := n - 1;
      PassingPairs(h, mask);
      AndPair(h, mask);
      PassingNext(2 * h + 1, mask);
      PassingNext(2 * h, mask);
    }
  }

  /** Every bit of a mask halves the number of words that pass. */
  lemma {:induction false} BitsHalve(width: nat, mask: nat)
    requires mask < Pow2(width)
    ensures BitCount(mask) <= width && Passing(Pow2(width), mask) == Pow2(width - BitCount(mask))
  {
    if width == 0 {
      assert And(0, 0) == 0 && Passing(1, 0) == Passing(0, 0) + 1;
    } else {
      hide *;
      var half, low := mask / 2, mask % 2;
      Halves(mask);
      Pow2Doubles(width);
      BitsHalve(width - 1, half);
      PassingPairs(Pow2(width - 1), mask);
      CountHalf(half, low);
      if low == 0 {
        Pow2Doubles(width - BitCount(mask));
      }
    }
  }

  /** The bit count sets the expected distance between cuts: one hash in `2^bits` passes the test. */
  lemma BitCountSetsTheShare(bits: nat)
    requires bits <= WIDTH
    ensures Passing(Pow2(WIDTH), MaskOf(bits, bits)) == Pow2(WIDTH - bits)
  {
    MaskCounts(bits, bits);
    hide Passing, Pow2;
    BitsHalve(WIDTH, MaskOf(bits, bits));
  }
}
