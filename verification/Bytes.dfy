/** Rearranging concatenations, one step at a time. */
module Seqs {
  lemma Regroup<T>(a: seq<T>, b: seq<T>, c: seq<T>)
    ensures a + (b + c) == a + b + c
  {
  }

  lemma Split<T>(s: seq<T>, n: nat)
    requires n <= |s|
    ensures s[..n] + s[n..] == s
  {
  }

  lemma TailOfJoin<T>(a: seq<T>, b: seq<T>)
    requires a != []
    ensures (a + b)[0] == a[0] && (a + b)[1..] == a[1..] + b
  {
  }

  /** Cutting a concatenation inside its first part. */
  lemma CutJoin<T>(a: seq<T>, b: seq<T>, n: nat)
    requires n <= |a|
    ensures (a + b)[..n] == a[..n] && (a + b)[n..] == a[n..] + b
    ensures a + b == a[..n] + (a[n..] + b)
  {
  }
}

/** Bytes, and sequences of byte strings laid end to end. */
module Bytes {
  import Seqs

  type byte = b: int | 0 <= b < 256

  function Concat(parts: seq<seq<byte>>): seq<byte> {
    if parts == [] then [] else parts[0] + Concat(parts[1..])
  }

  lemma {:induction false} ConcatBoth(a: seq<seq<byte>>, b: seq<seq<byte>>)
    ensures Concat(a + b) == Concat(a) + Concat(b)
  {
    if a == [] {
      assert a + b == b;
    } else {
      ConcatBoth(a[1..], b);
      Seqs.TailOfJoin(a, b);
      Seqs.Regroup(a[0], Concat(a[1..]), Concat(b));
    }
  }

  lemma ConcatSnoc(parts: seq<seq<byte>>, last: seq<byte>)
    ensures Concat(parts + [last]) == Concat(parts) + last
  {
    ConcatBoth(parts, [last]);
    assert Concat([last]) == last + Concat([]);
  }
}
