/**
 * Content addresses: a BLAKE3 digest is 32 bytes, and travels as 64 lower-case hex characters. BLAKE3
 * itself is a parameter wherever it is used.
 */
module ContentAddresses {
  import opened Wrappers
  import opened Bytes
  import opened Numbers

  const DIGEST_BYTES: nat := 32

  datatype RawDigest = RawDigest(bytes: seq<byte>)

  type Digest = d: RawDigest | |d.bytes| == DIGEST_BYTES witness RawDigest(seq(DIGEST_BYTES, _ => 0))

  /** BLAKE3, uninterpreted. */
  type Blake = seq<byte> -> Digest

  function HexOf(bytes: seq<byte>): (text: string)
    ensures |text| == 2 * |bytes|
  {
    if bytes == [] then "" else [HexDigit(bytes[0] / 16), HexDigit(bytes[0] % 16)] + HexOf(bytes[1..])
  }

  function BytesOfHex(text: string): (bytes: seq<byte>)
    requires |text| % 2 == 0
    ensures |text| == 2 * |bytes|
  {
    if text == "" then [] else [Nibble(text[0]) * 16 + Nibble(text[1])] + BytesOfHex(text[2..])
  }

  predicate AllLowerHex(text: string) {
    forall c | c in text :: IsLowerHex(c)
  }

  /** `hash_hex`. */
  function HashHex(d: Digest): string {
    HexOf(d.bytes)
  }

  /** `parse_hash`: exactly 64 lower-case hex characters, so that one address has one spelling. */
  function ParseHash(text: string): Option<Digest> {
    if |text| != 2 * DIGEST_BYTES || !AllLowerHex(text) then None else Some(RawDigest(BytesOfHex(text)))
  }

  lemma {:induction false} HexIsHex(bytes: seq<byte>)
    ensures AllLowerHex(HexOf(bytes))
  {
    if bytes != [] {
      HexIsHex(bytes[1..]);
    }
  }

  lemma {:induction false} HexDecodes(bytes: seq<byte>)
    ensures BytesOfHex(HexOf(bytes)) == bytes
  {
    if bytes != [] {
      HexDecodes(bytes[1..]);
      assert HexOf(bytes)[2..] == HexOf(bytes[1..]);
    }
  }

  lemma {:induction false} HexEncodes(text: string)
    requires |text| % 2 == 0 && AllLowerHex(text)
    ensures HexOf(BytesOfHex(text)) == text
  {
    if text != "" {
      var hi, lo := text[0], text[1];
      HexEncodes(text[2..]);
      NibbleInjective(hi);
      NibbleInjective(lo);
      var b := Nibble(hi) * 16 + Nibble(lo);
      assert b / 16 == Nibble(hi) && b % 16 == Nibble(lo);
    }
  }

  /** Two digits for each byte, in order, the upper half first. */
  lemma {:induction false} HexDigitAt(bytes: seq<byte>, i: nat)
    requires i < |bytes|
    ensures HexOf(bytes)[2 * i] == DIGITS[bytes[i] / 16] && HexOf(bytes)[2 * i + 1] == DIGITS[bytes[i] % 16]
  {
    if i == 0 {
      DigitIs(bytes[0] / 16);
      DigitIs(bytes[0] % 16);
    } else {
      HexDigitAt(bytes[1..], i - 1);
      assert HexOf(bytes)[2..] == HexOf(bytes[1..]);
    }
  }

  const DIGITS: string := "0123456789abcdef"

  lemma DigitIs(n: nat)
    requires n < 16
    ensures HexDigit(n) == DIGITS[n]
  {
  }

  /** Parsing inverts printing, and only the printed spelling of a digest parses to it. */
  lemma AddressRoundTrip(text: string, d: Digest)
    ensures ParseHash(text) == Some(d) <==> text == HashHex(d)
  {
    HexIsHex(d.bytes);
    HexDecodes(d.bytes);
    if ParseHash(text) == Some(d) {
      HexEncodes(text);
    }
  }
}
