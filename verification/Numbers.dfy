/** Machine words, minima and maxima, and hex digits. */
module Numbers {
  type u16 = n: nat | n < 0x1_0000

  type u32 = n: nat | n < 0x1_0000_0000

  type u64 = n: nat | n < 0x1_0000_0000_0000_0000

  function Min(a: nat, b: nat): nat {
    if a < b then a else b
  }

  function Max(a: nat, b: nat): nat {
    if a < b then b else a
  }

  predicate IsLowerHex(c: char) {
    '0' <= c <= '9' || 'a' <= c <= 'f'
  }

  function HexDigit(n: nat): (c: char)
    requires n < 16
    ensures IsLowerHex(c) && Nibble(c) == n
  {
    if n < 10 then '0' + n as char else 'a' + (n - 10) as char
  }

  function Nibble(c: char): (n: nat)
    ensures n < 16
  {
    if '0' <= c <= '9' then (c - '0') as nat else if 'a' <= c <= 'f' then (c - 'a') as nat + 10 else 0
  }

  lemma NibbleInjective(c: char)
    requires IsLowerHex(c)
    ensures HexDigit(Nibble(c)) == c
  {
  }
}
