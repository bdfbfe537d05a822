/**
 * Base64 with padding, section 4 of RFC 4648: the codec of file contents on the vfs channel. Text is a
 * sequence of ASCII codes.
 */
module Base64 {
  import Seqs
  import opened Masks
  import opened Wrappers
  import opened Bytes

  type Text = seq<byte>

  const PAD: byte := 61

  // ------------------------------------------------------------------
  // One character
  // ------------------------------------------------------------------

  type sextet = n: int | 0 <= n < 64

  /** The alphabet: upper case, lower case, digits, plus and slash. */
  function Symbol(v: sextet): byte {
    if v < 26 then 65 + v else if v < 52 then 71 + v else if v < 62 then v - 4 else if v == 62 then 43 else 47
  }

  function Value(b: byte): Option<sextet> {
    if 65 <= b <= 90 then Some(b - 65)
    else if 97 <= b <= 122 then Some(b - 71)
    else if 48 <= b <= 57 then Some(b + 4)
    else if b == 43 then Some(62)
    else if b == 47 then Some(63)
    else None
  }

  lemma SymbolRoundTrip(v: sextet, b: byte)
    ensures Value(b) == Some(v) <==> b == Symbol(v)
    ensures Symbol(v) != PAD
  {
  }

  // ------------------------------------------------------------------
  // One group
  // ------------------------------------------------------------------

  type word24 = n: int | 0 <= n < 0x100_0000

  function OfSextets(v0: sextet, v1: sextet, v2: sextet, v3: sextet): word24 {
    ((v0 * 64 + v1) * 64 + v2) * 64 + v3
  }

  function OfBytes(b0: byte, b1: byte, b2: byte): word24 {
    b0 * 0x1_0000 + b1 * 0x100 + b2
  }

  /** Sextet `i` of the word, counted from the top: a shift and a mask. */
  function Sextet(w: word24, i: nat): sextet
    requires i < 4
  {
    if i == 0 then w / 0x4_0000 % 64 else if i == 1 then w / 0x1000 % 64 else if i == 2 then w / 64 % 64 else w % 64
  }

  function Octet(w: word24, i: nat): byte
    requires i < 3
  {
    if i == 0 then w / 0x1_0000 % 256 else if i == 1 then w / 0x100 % 256 else w % 256
  }

  lemma SextetsOfWord(v0: sextet, v1: sextet, v2: sextet, v3: sextet)
    ensures var w := OfSextets(v0, v1, v2, v3);
            Sextet(w, 0) == v0 && Sextet(w, 1) == v1 && Sextet(w, 2) == v2 && Sextet(w, 3) == v3
  {
    var w := OfSextets(v0, v1, v2, v3);
    assert w / 64 == (v0 * 64 + v1) * 64 + v2;
    assert w / 0x1000 == v0 * 64 + v1;
    assert w / 0x4_0000 == v0;
  }

  lemma WordOfSextets(w: word24)
    ensures OfSextets(Sextet(w, 0), Sextet(w, 1), Sextet(w, 2), Sextet(w, 3)) == w
  {
    assert w / 64 / 64 == w / 0x1000 && w / 0x1000 / 64 == w / 0x4_0000;
  }

  lemma OctetsOfWord(b0: byte, b1: byte, b2: byte)
    ensures var w := OfBytes(b0, b1, b2);
            Octet(w, 0) == b0 && Octet(w, 1) == b1 && Octet(w, 2) == b2
  {
    var w := OfBytes(b0, b1, b2);
    var h := b0 * 256 + b1;
    assert w == h * 256 + b2;
    assert w / 0x100 == h && w % 256 == b2;
    assert h / 256 == b0 && h % 256 == b1;
    assert w / 0x1_0000 == b0;
  }

  lemma WordOfOctets(w: word24)
    ensures OfBytes(Octet(w, 0), Octet(w, 1), Octet(w, 2)) == w
  {
    assert w / 0x100 / 0x100 == w / 0x1_0000;
  }

  function EncodeGroup(group: seq<byte>): (s: Text)
    requires 1 <= |group| <= 3
    ensures |s| == 4
  {
    var w := OfBytes(group[0], if |group| > 1 then group[1] else 0, if |group| > 2 then group[2] else 0);
    [ Symbol(Sextet(w, 0)), Symbol(Sextet(w, 1)),
      if |group| > 1 then Symbol(Sextet(w, 2)) else PAD,
      if |group| > 2 then Symbol(Sextet(w, 3)) else PAD ]
  }

  datatype DecodeError = BadLength | MisplacedPadding | OutsideAlphabet

  function PadCount(group: Text): nat {
    if group == [] then 0 else (if group[0] == PAD then 1 else 0) + PadCount(group[1..])
  }

  /** The value of a character of the group, padding counting as zero. */
  function ValueAt(b: byte): sextet {
    if Value(b).Some? then Value(b).value else 0
  }

  predicate Misplaced(group: Text, last: bool)
    requires |group| == 4
  {
    var pad := PadCount(group);
    || (pad > 0 && (!last || group[0] == PAD || group[1] == PAD || pad > 2))
    || (pad == 1 && group[2] == PAD)
  }

  function DecodeGroup(group: Text, last: bool): Result<seq<byte>, DecodeError>
    requires |group| == 4
  {
    var pad := PadCount(group);
    if Misplaced(group, last) then Err(MisplacedPadding)
    else if exists i | 0 <= i < 4 - pad :: Value(group[i]).None? then Err(OutsideAlphabet)
    else
      var w := OfSextets(ValueAt(group[0]), ValueAt(group[1]),
                         if pad < 2 then ValueAt(group[2]) else 0, if pad < 1 then ValueAt(group[3]) else 0);
      Ok(if pad == 2 then [Octet(w, 0)] else if pad == 1 then [Octet(w, 0), Octet(w, 1)]
         else [Octet(w, 0), Octet(w, 1), Octet(w, 2)])
  }

  lemma PadCountOf4(g: Text)
    requires |g| == 4
    ensures PadCount(g) == (if g[0] == PAD then 1 else 0) + (if g[1] == PAD then 1 else 0)
                           + (if g[2] == PAD then 1 else 0) + (if g[3] == PAD then 1 else 0)
  {
    assert PadCount(g) == (if g[0] == PAD then 1 else 0) + PadCount(g[1..]);
    assert PadCount(g[1..]) == (if g[1] == PAD then 1 else 0) + PadCount(g[2..]) by { assert g[1..][1..] == g[2..]; }
    assert PadCount(g[2..]) == (if g[2] == PAD then 1 else 0) + PadCount(g[3..]) by { assert g[2..][1..] == g[3..]; }
    assert PadCount(g[3..]) == (if g[3] == PAD then 1 else 0) + PadCount([]) by { assert g[3..][1..] == []; }
  }

  /** The bits of the last character that no byte uses are zero. */
  predicate NoLeftover(group: Text)
    requires |group| == 4
  {
    && (group[2] == PAD ==> ValueAt(group[1]) % 16 == 0)
    && (group[2] != PAD && group[3] == PAD ==> ValueAt(group[2]) % 4 == 0)
  }

  lemma Multiple64(k: nat)
    ensures 64 * k / 64 == k && 64 * k % 64 == 0
  {
  }

  lemma ShortWord(b0: byte, b1: byte)
    ensures Sextet(OfBytes(b0, 0, 0), 2) == 0 && Sextet(OfBytes(b0, b1, 0), 3) == 0
  {
    Multiple64(b0 * 1024 + b1 * 4);
    Multiple64(b0 * 1024);
    Multiple64(b0 * 16);
    var w := OfBytes(b0, 0, 0);
    assert w == 64 * (b0 * 1024);
    assert w / 64 == 64 * (b0 * 16);
    assert OfBytes(b0, b1, 0) == 64 * (b0 * 1024 + b1 * 4);
  }

  /** What the four characters of a group are, read back. */
  lemma GroupReadsBack(group: seq<byte>)
    requires 1 <= |group| <= 3
    ensures var g := EncodeGroup(group);
            var w := OfBytes(group[0], if |group| > 1 then group[1] else 0, if |group| > 2 then group[2] else 0);
            && Value(g[0]) == Some(Sextet(w, 0)) && Value(g[1]) == Some(Sextet(w, 1))
            && g[0] != PAD && g[1] != PAD && (g[2] == PAD <==> |group| == 1) && (g[3] == PAD <==> |group| < 3)
            && (|group| > 1 ==> Value(g[2]) == Some(Sextet(w, 2)))
            && (|group| > 2 ==> Value(g[3]) == Some(Sextet(w, 3)))
            && PadCount(g) == 3 - |group|
  {
    var w := OfBytes(group[0], if |group| > 1 then group[1] else 0, if |group| > 2 then group[2] else 0);
    forall i | 0 <= i < 4
      ensures Value(Symbol(Sextet(w, i))) == Some(Sextet(w, i)) && Symbol(Sextet(w, i)) != PAD
    {
      SymbolRoundTrip(Sextet(w, i), Symbol(Sextet(w, i)));
    }
    PadCountOf4(EncodeGroup(group));
    hide Sextet, Symbol, Value, OfBytes, PadCount;
  }

  lemma GroupDecodes(group: seq<byte>, last: bool)
    requires 1 <= |group| <= 3 && (|group| < 3 ==> last)
    ensures DecodeGroup(EncodeGroup(group), last) == Ok(group)
  {
    var b1, b2 := if |group| > 1 then group[1] else 0, if |group| > 2 then group[2] else 0;
    GroupReadsBack(group);
    ShortWord(group[0], b1);
    WordOfSextets(OfBytes(group[0], b1, b2));
    OctetsOfWord(group[0], b1, b2);
    assert group == if |group| == 1 then [group[0]] else if |group| == 2 then [group[0], b1] else [group[0], b1, b2];
    hide OfSextets, Octet, Sextet, Symbol, Value, OfBytes, EncodeGroup, PadCount;
  }

  /** One byte out of two characters: the low four bits of the second are dropped. */
  lemma Truncated1(v0: sextet, v1: sextet)
    ensures var w := OfBytes(Octet(OfSextets(v0, v1, 0, 0), 0), 0, 0);
            Sextet(w, 0) == v0 && Sextet(w, 1) == v1 - v1 % 16
  {
    var w := OfSextets(v0, v1, 0, 0);
    var b := v0 * 4 + v1 / 16;
    assert w == b * 0x1_0000 + v1 % 16 * 0x1000;
    assert Octet(w, 0) == b;
    var u := OfSextets(v0, v1 - v1 % 16, 0, 0);
    assert OfBytes(b, 0, 0) == u;
    SextetsOfWord(v0, v1 - v1 % 16, 0, 0);
  }

  lemma Divide256(h: nat, r: nat)
    requires r < 256
    ensures (h * 256 + r) / 256 == h && (h * 256 + r) % 256 == r
  {
  }

  /** The upper two bytes of a word. */
  lemma UpperOctets(h: nat, r: nat)
    requires h < 0x1_0000 && r < 256
    ensures var w: word24 := h * 256 + r;
            Octet(w, 0) == h / 256 && Octet(w, 1) == h % 256
  {
    Divide256(h, r);
    Divide256(h / 256, h % 256);
    assert (h * 256 + r) / 0x1_0000 == h / 256;
  }

  /** A word with its low byte split off: what the third character leaves over is the top of that byte. */
  lemma SplitLow(v0: sextet, v1: sextet, q: nat, r: nat)
    requires q < 16 && r < 4
    ensures OfSextets(v0, v1, 4 * q + r, 0) == (v0 * 1024 + v1 * 16 + q) * 256 + r * 64
    ensures v0 * 1024 + v1 * 16 + q < 0x1_0000
  {
  }

  lemma JoinUpper(h: nat)
    requires h < 0x1_0000
    ensures OfBytes(h / 256, h % 256, 0) == h * 256
  {
    assert h == h / 256 * 256 + h % 256;
  }

  lemma Truncated2At(v0: sextet, v1: sextet, q: nat, r: nat)
    requires q < 16 && r < 4
    ensures var o := OfSextets(v0, v1, 4 * q + r, 0);
            OfBytes(Octet(o, 0), Octet(o, 1), 0) == OfSextets(v0, v1, 4 * q, 0)
  {
    hide *;
    var h := v0 * 1024 + v1 * 16 + q;
    SplitLow(v0, v1, q, r);
    SplitLow(v0, v1, q, 0);
    UpperOctets(h, r * 64);
    JoinUpper(h);
  }

  /** Two bytes out of three characters: the low two bits of the third are dropped. */
  lemma Truncated2(v0: sextet, v1: sextet, v2: sextet)
    ensures var o := OfSextets(v0, v1, v2, 0);
            var w := OfBytes(Octet(o, 0), Octet(o, 1), 0);
            Sextet(w, 0) == v0 && Sextet(w, 1) == v1 && Sextet(w, 2) == v2 - v2 % 4
  {
    hide Octet, Sextet, OfSextets, OfBytes;
    assert 4 * (v2 / 4) + v2 % 4 == v2;
    Truncated2At(v0, v1, v2 / 4, v2 % 4);
    SextetsOfWord(v0, v1, 4 * (v2 / 4), 0);
  }

  lemma KnownSymbols(group: Text, last: bool)
    requires |group| == 4 && DecodeGroup(group, last).Ok?
    ensures forall i | 0 <= i < 4 - PadCount(group) :: group[i] == Symbol(ValueAt(group[i])) && group[i] != PAD
    ensures PadCount(group) <= 2 && (PadCount(group) > 0 ==> last)
    ensures PadCount(group) == 2 <==> group[2] == PAD
    ensures PadCount(group) >= 1 <==> group[3] == PAD
  {
    PadCountOf4(group);
    forall i | 0 <= i < 4 - PadCount(group)
      ensures group[i] == Symbol(ValueAt(group[i])) && group[i] != PAD
    {
      assert Value(group[i]).Some?;
      SymbolRoundTrip(ValueAt(group[i]), group[i]);
    }
  }

  lemma SymbolInjective(v: sextet, u: sextet)
    ensures Symbol(v) == Symbol(u) <==> v == u
  {
  }

  /** Encoding gives a group back exactly when no bit of it was left over. */
  lemma GroupEncodes(group: Text, last: bool)
    requires |group| == 4 && DecodeGroup(group, last).Ok?
    ensures var bytes := DecodeGroup(group, last).value;
            && 1 <= |bytes| <= 3 && (|bytes| < 3 ==> last)
            && (EncodeGroup(bytes) == group <==> NoLeftover(group))
  {
    KnownSymbols(group, last);
    hide Octet, Sextet, OfSextets, OfBytes, Symbol;
    var pad := PadCount(group);
    var v0, v1, v2, v3 := ValueAt(group[0]), ValueAt(group[1]), ValueAt(group[2]), ValueAt(group[3]);
    var bytes := DecodeGroup(group, last).value;
    if pad == 2 {
      assert bytes == [Octet(OfSextets(v0, v1, 0, 0), 0)];
      Truncated1(v0, v1);
      SymbolInjective(v1, v1 - v1 % 16);
      assert EncodeGroup(bytes) == [Symbol(v0), Symbol(v1 - v1 % 16), PAD, PAD];
      assert group == [Symbol(v0), Symbol(v1), PAD, PAD];
      assert EncodeGroup(bytes)[1] == Symbol(v1 - v1 % 16) && group[1] == Symbol(v1);
    } else if pad == 1 {
      var o := OfSextets(v0, v1, v2, 0);
      assert bytes == [Octet(o, 0), Octet(o, 1)];
      Truncated2(v0, v1, v2);
      SymbolInjective(v2, v2 - v2 % 4);
      assert EncodeGroup(bytes) == [Symbol(v0), Symbol(v1), Symbol(v2 - v2 % 4), PAD];
      assert group == [Symbol(v0), Symbol(v1), Symbol(v2), PAD];
      assert EncodeGroup(bytes)[2] == Symbol(v2 - v2 % 4) && group[2] == Symbol(v2);
    } else {
      var o := OfSextets(v0, v1, v2, v3);
      assert bytes == [Octet(o, 0), Octet(o, 1), Octet(o, 2)];
      WordOfOctets(o);
      SextetsOfWord(v0, v1, v2, v3);
      assert EncodeGroup(bytes) == [Symbol(v0), Symbol(v1), Symbol(v2), Symbol(v3)];
      assert group == [Symbol(v0), Symbol(v1), Symbol(v2), Symbol(v3)];
    }
  }

  // ------------------------------------------------------------------
  // Whole texts
  // ------------------------------------------------------------------

  function Encoded(data: seq<byte>): Text {
    if data == [] then []
    else if |data| <= 3 then EncodeGroup(data)
    else EncodeGroup(data[..3]) + Encoded(data[3..])
  }

  function Prefixed(out: seq<byte>, r: Result<seq<byte>, DecodeError>): Result<seq<byte>, DecodeError> {
    if r.Err? then r else Ok(out + r.value)
  }

  /** The groups of four of a text, up to the first bad one. */
  function DecodedGroups(text: Text): Result<seq<byte>, DecodeError> {
    if |text| < 4 then Ok([])
    else
      var first := DecodeGroup(text[..4], |text| == 4);
      if first.Err? then first else Prefixed(first.value, DecodedGroups(text[4..]))
  }

  function Decoded(text: Text): Result<seq<byte>, DecodeError> {
    if |text| % 4 != 0 then Err(BadLength) else DecodedGroups(text)
  }

  /** `encode`: three bytes at a time. */
  method Encode(data: seq<byte>) returns (text: Text)
    ensures text == Encoded(data)
  {
    text := [];
    var i := 0;
    assert data[0..] == data;
    while i < |data|
      invariant i <= |data|
      invariant text + Encoded(data[i..]) == Encoded(data)
      decreases |data| - i
    {
      var n := if |data| - i < 3 then |data| - i else 3;
      EncodeStep(data[i..]);
      var group := data[i..i + n];
      assert data[i..][..n] == group && data[i..][n..] == data[i + n..];
      Seqs.Regroup(text, EncodeGroup(group), Encoded(data[i + n..]));
      text := text + EncodeGroup(group);
      i := i + n;
    }
    assert data[i..] == [];
  }

  lemma EncodeStep(data: seq<byte>)
    requires data != []
    ensures var n := if |data| < 3 then |data| else 3;
            Encoded(data) == EncodeGroup(data[..n]) + Encoded(data[n..])
  {
    hide EncodeGroup;
    if |data| <= 3 {
      assert data[..|data|] == data && data[|data|..] == [];
      assert EncodeGroup(data) + [] == EncodeGroup(data);
    }
  }

  /** `decode`: four characters at a time, stopping at the first bad group. */
  method Decode(text: Text) returns (r: Result<seq<byte>, DecodeError>)
    ensures r == Decoded(text)
  {
    if |text| % 4 != 0 {
      return Err(BadLength);
    }
    var out: seq<byte> := [];
    var n := |text| / 4;
    PrefixedNothing(DecodedGroups(text));
    assert text[0..] == text;
    hide DecodeGroup;
    for k := 0 to n
      invariant Prefixed(out, DecodedGroups(text[4 * k..])) == DecodedGroups(text)
    {
      var rest := text[4 * k..];
      var group, last := rest[..4], k == n - 1;
      assert rest[4..] == text[4 * (k + 1)..];
      var bytes := DecodeGroup(group, last);
      if bytes.Err? {
        return bytes;
      }
      PrefixedTwice(out, bytes.value, DecodedGroups(rest[4..]));
      out := out + bytes.value;
    }
    assert out + [] == out;
    r := Ok(out);
  }

  lemma PrefixedNothing(r: Result<seq<byte>, DecodeError>)
    ensures Prefixed([], r) == r
  {
    if r.Ok? {
      assert [] + r.value == r.value;
    }
  }

  lemma PrefixedTwice(a: seq<byte>, b: seq<byte>, r: Result<seq<byte>, DecodeError>)
    ensures Prefixed(a, Prefixed(b, r)) == Prefixed(a + b, r)
  {
    if r.Ok? {
      Seqs.Regroup(a, b, r.value);
    }
  }

  lemma OneGroup(group: Text, data: seq<byte>)
    requires |group| == 4 && 1 <= |data| <= 3
    ensures DecodeGroup(group, true) == Ok(data) ==> Decoded(group) == Ok(data)
    ensures Encoded(data) == EncodeGroup(data)
  {
    hide DecodeGroup, EncodeGroup;
    assert group[..4] == group && group[4..] == [];
    assert DecodedGroups([]) == Ok([]);
    assert data + [] == data;
  }

  lemma GroupFirst(group: Text, rest: Text, first: seq<byte>, tail: seq<byte>)
    requires |group| == 4 && rest != [] && |rest| % 4 == 0
    requires DecodeGroup(group, false) == Ok(first) && Decoded(rest) == Ok(tail)
    ensures Decoded(group + rest) == Ok(first + tail)
  {
    hide DecodeGroup;
    assert (group + rest)[..4] == group && (group + rest)[4..] == rest;
  }

  /** Whatever is encoded is decoded to itself. */
  lemma {:induction false} EncodedDecodes(data: seq<byte>)
    ensures |Encoded(data)| % 4 == 0 && Decoded(Encoded(data)) == Ok(data)
    ensures data != [] ==> Encoded(data) != []
  {
    hide EncodeGroup, DecodeGroup, Decoded;
    if data == [] {
      DecodedNothing();
    } else if |data| <= 3 {
      GroupDecodes(data, true);
      OneGroup(EncodeGroup(data), data);
    } else {
      EncodedDecodes(data[3..]);
      GroupDecodes(data[..3], false);
      GroupFirst(EncodeGroup(data[..3]), Encoded(data[3..]), data[..3], data[3..]);
      Seqs.Split(data, 3);
    }
  }

  lemma DecodedNothing()
    ensures Decoded([]) == Ok([])
  {
  }

  /** Four characters for every three bytes begun. */
  lemma {:induction false} EncodedLength(data: seq<byte>)
    ensures |Encoded(data)| % 4 == 0 && 3 * |Encoded(data)| >= 4 * |data| && 3 * |Encoded(data)| <= 4 * |data| + 8
  {
    hide EncodeGroup;
    if |data| > 3 {
      EncodedLength(data[3..]);
    }
  }

  /** Nothing is left over in the last group. */
  predicate Canonical(text: Text) {
    |text| >= 4 ==> NoLeftover(text[|text| - 4..])
  }

  /**
   * A text that decodes is the encoding of what it decodes to exactly when the bits of its last character
   * that no byte uses are zero: the decoder drops them without looking.
   */
  lemma {:induction false} DecodedEncodes(text: Text)
    requires Decoded(text).Ok?
    ensures Encoded(Decoded(text).value) == text <==> Canonical(text)
    decreases |text|
  {
    hide EncodeGroup, DecodeGroup, NoLeftover;
    if text != [] {
      var group, rest := text[..4], text[4..];
      var first, tail := DecodeGroup(group, |text| == 4).value, DecodedGroups(rest).value;
      GroupEncodes(group, |text| == 4);
      assert Decoded(text).value == first + tail;
      assert text == group + rest;
      if |text| == 4 {
        assert group == text && text[|text| - 4..] == text;
        assert first + tail == first;
      } else {
        DecodedEncodes(rest);
        assert text[|text| - 4..] == rest[|rest| - 4..];
        FullGroup(group);
        FirstOfTwo(first, tail, rest);
        hide Encoded, Decoded, DecodedGroups;
        SplitEncoding(group, Encoded(tail), rest);
      }
    }
  }

  /** Three bytes at most for each four characters. */
  lemma {:induction false} DecodedLength(text: Text)
    requires DecodedGroups(text).Ok?
    ensures 4 * |DecodedGroups(text).value| <= 3 * |text|
    decreases |text|
  {
    if |text| >= 4 {
      var group, rest := text[..4], text[4..];
      GroupEncodes(group, |text| == 4);
      assert DecodedGroups(text).value == DecodeGroup(group, |text| == 4).value + DecodedGroups(rest).value;
      DecodedLength(rest);
      hide *;
    }
  }

  lemma DecodedIsShort(text: Text)
    requires Decoded(text).Ok?
    ensures |text| % 4 == 0 && 4 * |Decoded(text).value| <= 3 * |text|
  {
    hide DecodedGroups;
    DecodedLength(text);
  }

  lemma FullGroup(group: Text)
    requires |group| == 4 && DecodeGroup(group, false).Ok?
    ensures |DecodeGroup(group, false).value| == 3 && NoLeftover(group)
  {
    KnownSymbols(group, false);
  }

  lemma FirstOfTwo(first: seq<byte>, tail: seq<byte>, rest: Text)
    requires |first| == 3 && |rest| >= 4 && DecodedGroups(rest) == Ok(tail)
    ensures Encoded(first + tail) == EncodeGroup(first) + Encoded(tail)
  {
    hide EncodeGroup, DecodeGroup;
    GroupEncodes(rest[..4], |rest| == 4);
    assert tail != [];
    assert (first + tail)[..3] == first && (first + tail)[3..] == tail;
  }

  lemma SplitEncoding(a: Text, b: Text, c: Text)
    ensures a + b == a + c <==> b == c
  {
    assert (a + b)[|a|..] == b && (a + c)[|a|..] == c;
  }

  /** The texts of a single byte and of two bytes. */
  function Padded1(v0: sextet, v1: sextet): Text {
    [Symbol(v0), Symbol(v1), PAD, PAD]
  }

  function Padded2(v0: sextet, v1: sextet, v2: sextet): Text {
    [Symbol(v0), Symbol(v1), Symbol(v2), PAD]
  }

  /** The sextet without the bits a single byte, or two bytes, leave over. */
  function Upper2(v: sextet): sextet {
    v - v % 16
  }

  function Upper4(v: sextet): sextet {
    v - v % 4
  }

  /** The text decodes, and to what `canonical` encodes. */
  predicate MeansAs(text: Text, canonical: Text) {
    Decoded(text).Ok? && Encoded(Decoded(text).value) == canonical
  }

  /**
   * Sixteen texts decode to each single byte and four to each two bytes, and encoding gives back just one of
   * them: "AB==" and "AA==" are both one zero byte, whose encoding is "AA==".
   */
  lemma LeftoverBitsAreDropped(v0: sextet, v1: sextet, v2: sextet)
    ensures MeansAs(Padded1(v0, v1), Padded1(v0, Upper2(v1)))
    ensures MeansAs(Padded2(v0, v1, v2), Padded2(v0, v1, Upper4(v2)))
  {
    hide Padded1, Padded2, Decoded, Encoded, OfSextets, OfBytes, Octet, Sextet;
    var o1, o2 := OfSextets(v0, v1, 0, 0), OfSextets(v0, v1, v2, 0);
    PaddedDecodes(v0, v1, v2);
    Truncated1(v0, v1);
    Truncated2(v0, v1, v2);
    PaddedEncodes(Octet(o1, 0), 0);
    PaddedEncodes(Octet(o2, 0), Octet(o2, 1));
  }

  lemma PaddedDecodes(v0: sextet, v1: sextet, v2: sextet)
    ensures var o := OfSextets(v0, v1, 0, 0); Decoded(Padded1(v0, v1)) == Ok([Octet(o, 0)])
    ensures var o := OfSextets(v0, v1, v2, 0); Decoded(Padded2(v0, v1, v2)) == Ok([Octet(o, 0), Octet(o, 1)])
  {
    var one, two := Padded1(v0, v1), Padded2(v0, v1, v2);
    SymbolRoundTrip(v0, Symbol(v0));
    SymbolRoundTrip(v1, Symbol(v1));
    SymbolRoundTrip(v2, Symbol(v2));
    PadCountOf4(one);
    PadCountOf4(two);
    OneGroup(one, [Octet(OfSextets(v0, v1, 0, 0), 0)]);
    OneGroup(two, [Octet(OfSextets(v0, v1, v2, 0), 0), Octet(OfSextets(v0, v1, v2, 0), 1)]);
    hide Symbol, Value, Octet, OfSextets, PadCount, Decoded, Encoded;
  }

  lemma PaddedEncodes(b0: byte, b1: byte)
    ensures var w := OfBytes(b0, 0, 0); Encoded([b0]) == Padded1(Sextet(w, 0), Sextet(w, 1))
    ensures var w := OfBytes(b0, b1, 0); Encoded([b0, b1]) == Padded2(Sextet(w, 0), Sextet(w, 1), Sextet(w, 2))
  {
    hide Symbol, Sextet, OfBytes, Encoded, DecodeGroup, Decoded;
    OneGroup([PAD, PAD, PAD, PAD], [b0]);
    OneGroup([PAD, PAD, PAD, PAD], [b0, b1]);
  }

  // ------------------------------------------------------------------
  // Which texts decode
  // ------------------------------------------------------------------

  /** Groups of four from the alphabet, the last of which may end in one or two pads. */
  ghost predicate Formed(text: Text) {
    && |text| % 4 == 0
    && forall i | 0 <= i < |text| ::
         Value(text[i]).Some? || (text[i] == PAD && i + 2 >= |text| && text[|text| - 1] == PAD)
  }

  lemma GroupFormed(group: Text)
    requires |group| == 4
    ensures DecodeGroup(group, true).Ok? <==> Formed(group)
    ensures DecodeGroup(group, false).Ok? <==> forall i | 0 <= i < 4 :: Value(group[i]).Some?
  {
    PadCountOf4(group);
    hide PadCount, OfSextets, Octet, Value;
    PadIsNoSymbol();
    var pad := PadCount(group);
    var v0, v1 := Value(group[0]).Some?, Value(group[1]).Some?;
    var v2, v3 := Value(group[2]).Some?, Value(group[3]).Some?;
    assert (exists i | 0 <= i < 4 - pad :: Value(group[i]).None?) <==>
             (pad < 4 && !v0) || (pad < 3 && !v1) || (pad < 2 && !v2) || (pad < 1 && !v3);
    assert Formed(group) <==>
             v0 && v1 && (v2 || (group[2] == PAD && group[3] == PAD)) && (v3 || group[3] == PAD);
  }

  lemma FormedSplit(text: Text)
    requires |text| > 4
    ensures Formed(text) <==> (forall i | 0 <= i < 4 :: Value(text[..4][i]).Some?) && Formed(text[4..])
  {
    hide Value;
    var rest := text[4..];
    assert forall i | 4 <= i < |text| :: text[i] == rest[i - 4];
    assert forall i | 0 <= i < 4 :: text[..4][i] == text[i];
    if Formed(text) && |rest| % 4 == 0 {
      assert |text| >= 8;
    }
  }

  lemma DecodedCons(text: Text)
    requires |text| >= 4
    ensures Decoded(text).Ok? <==> DecodeGroup(text[..4], |text| == 4).Ok? && Decoded(text[4..]).Ok?
  {
    hide DecodeGroup;
  }

  lemma NoGroups(text: Text)
    requires |text| < 4
    ensures Decoded(text).Ok? <==> text == []
    ensures Formed(text) <==> text == []
  {
  }

  /** Exactly the well-formed texts decode: nothing outside the alphabet, no pad before the end. */
  lemma {:induction false} DecodesExactly(text: Text)
    ensures Decoded(text).Ok? <==> Formed(text)
    decreases |text|
  {
    hide *;
    if |text| < 4 {
      NoGroups(text);
    } else {
      DecodedCons(text);
      GroupFormed(text[..4]);
      DecodesExactly(text[4..]);
      if |text| == 4 {
        assert text[..4] == text;
        NoGroups(text[4..]);
      } else {
        FormedSplit(text);
      }
    }
  }

  // ------------------------------------------------------------------
  // Bit by bit
  // ------------------------------------------------------------------

  /** Table 1 of RFC 4648: three runs of consecutive characters and the two last. */
  lemma SymbolsInOrder(v: sextet)
    ensures Symbol(0) == 'A' as int && Symbol(25) == 'Z' as int && Symbol(26) == 'a' as int && Symbol(51) == 'z' as int
    ensures Symbol(52) == '0' as int && Symbol(61) == '9' as int && Symbol(62) == '+' as int && Symbol(63) == '/' as int
    ensures v !in {25, 51, 61, 62, 63} ==> Symbol(v + 1) == Symbol(v) + 1
  {
  }

  /** Bit `j` of some bytes, counted from the top of the first. */
  predicate DataBit(data: seq<byte>, j: nat)
    requires j < 8 * |data|
  {
    Bit(data[j / 8], 7 - j % 8)
  }

  /** Bit `j` of the values of some characters, six bits each; a pad stands for zeros. */
  predicate TextBit(text: Text, j: nat)
    requires j < 6 * |text|
  {
    Bit(ValueAt(text[j / 6]), 5 - j % 6)
  }

  /** A number shifted right, and what that drops, a bit at a time. */
  function Above(n: nat, k: nat): nat {
    if k == 0 then n else Above(n / 2, k - 1)
  }

  function Below(n: nat, k: nat): nat {
    if k == 0 then 0 else n % 2 + 2 * Below(n / 2, k - 1)
  }

  lemma {:induction false} BitAbove(n: nat, k: nat, p: nat)
    ensures Bit(Above(n, k), p) <==> Bit(n, p + k)
    decreases k
  {
    if k > 0 {
      BitAbove(n / 2, k - 1, p);
    }
  }

  lemma {:induction false} BitBelow(n: nat, k: nat, p: nat)
    requires p < k
    ensures Bit(Below(n, k), p) <==> Bit(n, p)
    decreases k
  {
    var low := Below(n / 2, k - 1);
    assert (n % 2 + 2 * low) / 2 == low && (n % 2 + 2 * low) % 2 == n % 2;
    if p > 0 {
      BitBelow(n / 2, k - 1, p - 1);
    }
  }

  lemma ShiftsTwo(n: nat, k: nat)
    ensures Above(n, k + 2) == Above(n / 4, k) && Below(n, k + 2) == n % 4 + 4 * Below(n / 4, k)
  {
    assert n / 2 / 2 == n / 4;
    assert Above(n, k + 2) == Above(n / 2, k + 1) == Above(n / 2 / 2, k);
    assert Below(n, k + 2) == n % 2 + 2 * Below(n / 2, k + 1);
    assert Below(n / 2, k + 1) == n / 2 % 2 + 2 * Below(n / 2 / 2, k);
  }

  lemma Shifts2(n: nat)
    ensures Above(n, 2) == n / 4 && Below(n, 2) == n % 4
  {
    ShiftsTwo(n, 0);
    assert Above(n / 4, 0) == n / 4 && Below(n / 4, 0) == 0;
  }

  lemma Shifts4(n: nat)
    ensures Above(n, 4) == n / 16 && Below(n, 4) == n % 16
  {
    ShiftsTwo(n, 2);
    Shifts2(n / 4);
    hide Above, Below;
    assert n / 4 / 4 == n / 16 && n % 4 + 4 * (n / 4 % 4) == n % 16;
  }

  lemma Shifts6(n: nat)
    ensures Above(n, 6) == n / 64 && Below(n, 6) == n % 64
  {
    ShiftsTwo(n, 4);
    Shifts4(n / 4);
    hide Above, Below;
    assert n / 4 / 16 == n / 64 && n % 4 + 4 * (n / 4 % 16) == n % 64;
  }

  lemma Shifts8(n: nat)
    ensures Above(n, 8) == n / 0x100 && Below(n, 8) == n % 0x100
  {
    ShiftsTwo(n, 6);
    Shifts6(n / 4);
    hide Above, Below;
    assert n / 4 / 64 == n / 0x100 && n % 4 + 4 * (n / 4 % 64) == n % 0x100;
  }

  lemma SextetBits(w: word24, j: nat)
    requires j < 24
    ensures Bit(Sextet(w, j / 6), 5 - j % 6) <==> Bit(w, 23 - j)
  {
    var i, p := j / 6, 5 - j % 6;
    assert 23 - j == p + 6 * (3 - i);
    hide Bit, Above, Below;
    Shifts6(w);
    Shifts6(w / 64);
    Shifts6(w / 0x1000);
    Shifts6(w / 0x4_0000);
    assert w / 64 / 64 == w / 0x1000 && w / 0x1000 / 64 == w / 0x4_0000;
    var n := if i == 3 then w else if i == 2 then w / 64 else if i == 1 then w / 0x1000 else w / 0x4_0000;
    BitBelow(n, 6, p);
    BitAbove(w, 6, p);
    BitAbove(w / 64, 6, p);
    BitAbove(w, 6, p + 6);
    BitAbove(w / 0x1000, 6, p);
    BitAbove(w / 64, 6, p + 6);
    BitAbove(w, 6, p + 12);
  }

  lemma OctetBits(w: word24, j: nat)
    requires j < 24
    ensures Bit(Octet(w, j / 8), 7 - j % 8) <==> Bit(w, 23 - j)
  {
    var i, p := j / 8, 7 - j % 8;
    assert 23 - j == p + 8 * (2 - i);
    hide Bit, Above, Below;
    Shifts8(w);
    Shifts8(w / 0x100);
    Shifts8(w / 0x1_0000);
    assert w / 0x100 / 0x100 == w / 0x1_0000;
    var n := if i == 2 then w else if i == 1 then w / 0x100 else w / 0x1_0000;
    BitBelow(n, 8, p);
    BitAbove(w, 8, p);
    BitAbove(w / 0x100, 8, p);
    BitAbove(w, 8, p + 8);
  }

  /** The three bytes of a group as one word, missing ones as zeros. */
  function WordOf(group: seq<byte>): word24
    requires 1 <= |group| <= 3
  {
    OfBytes(group[0], if |group| > 1 then group[1] else 0, if |group| > 2 then group[2] else 0)
  }

  /** What the characters of a group stand for, pads for zeros. */
  lemma GroupValues(group: seq<byte>, i: nat)
    requires 1 <= |group| <= 3 && i < 4
    ensures ValueAt(EncodeGroup(group)[i]) == Sextet(WordOf(group), i)
  {
    GroupReadsBack(group);
    PadIsNoSymbol();
    ShortWord(group[0], if |group| > 1 then group[1] else 0);
    hide Sextet, OfBytes, EncodeGroup, Value, PadCount;
  }

  lemma GroupTextBit(group: seq<byte>, j: nat)
    requires 1 <= |group| <= 3 && j < 24
    ensures TextBit(EncodeGroup(group), j) <==> Bit(WordOf(group), 23 - j)
  {
    GroupValues(group, j / 6);
    hide Bit, Sextet, OfBytes, EncodeGroup, ValueAt;
    SextetBits(WordOf(group), j);
  }

  lemma GroupOctet(group: seq<byte>, i: nat)
    requires 1 <= |group| <= 3 && i < 3
    ensures Octet(WordOf(group), i) == if i < |group| then group[i] else 0
  {
    OctetsOfWord(group[0], if |group| > 1 then group[1] else 0, if |group| > 2 then group[2] else 0);
    hide Octet, OfBytes;
  }

  lemma GroupDataBit(group: seq<byte>, j: nat)
    requires 1 <= |group| <= 3 && j < 24
    ensures (j < 8 * |group| && DataBit(group, j)) <==> Bit(WordOf(group), 23 - j)
  {
    hide Bit, Octet, OfBytes, WordOf;
    GroupOctet(group, j / 8);
    OctetBits(WordOf(group), j);
    NoBits(7 - j % 8);
  }

  lemma GroupKeepsBits(group: seq<byte>, j: nat)
    requires 1 <= |group| <= 3 && j < 24
    ensures TextBit(EncodeGroup(group), j) <==> j < 8 * |group| && DataBit(group, j)
  {
    hide *;
    GroupTextBit(group, j);
    GroupDataBit(group, j);
  }

  lemma PadIsNoSymbol()
    ensures Value(PAD).None?
  {
  }

  /**
   * The encoding is the same bits: cut into sixes instead of eights, each group of six the character at that place of
   * the alphabet, filled up with zeros.
   */
  lemma {:induction false} EncodingKeepsBits(data: seq<byte>, j: nat)
    requires j < 6 * |Encoded(data)|
    ensures TextBit(Encoded(data), j) <==> j < 8 * |data| && DataBit(data, j)
  {
    hide EncodeGroup, Bit;
    if |data| <= 3 {
      GroupKeepsBits(data, j);
    } else if j < 24 {
      GroupKeepsBits(data[..3], j);
    } else {
      EncodingKeepsBits(data[3..], j - 24);
      assert (j - 24) / 6 == j / 6 - 4 && (j - 24) / 8 == j / 8 - 3;
      assert (j - 24) % 6 == j % 6 && (j - 24) % 8 == j % 8;
    }
  }
}
