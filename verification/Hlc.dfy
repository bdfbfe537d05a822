/**
 * Hybrid logical clocks: timestamps that order every synced mutation, from devices whose wall clocks may be
 * wrong, jump back, or lie.
 */
module Hlc {
  import opened Numbers
  import opened Orders
  import opened Wrappers

  const MAX_CLOCK_DRIFT_MS: nat := 60_000

  datatype Stamp = Stamp(physicalMs: nat, logical: nat, deviceId: string)

  // ------------------------------------------------------------------
  // Order
  // ------------------------------------------------------------------

  predicate CharBefore(c: char, d: char) {
    c < d
  }

  /** Strings by code unit. */
  predicate Precedes(s: string, t: string) {
    Lexicographic(CharBefore, s, t)
  }

  /** `compareHlc`. */
  function Compare(a: Stamp, b: Stamp): int {
    if a.physicalMs != b.physicalMs then if a.physicalMs < b.physicalMs then -1 else 1
    else if a.logical != b.logical then if a.logical < b.logical then -1 else 1
    else if a.deviceId != b.deviceId then if Precedes(a.deviceId, b.deviceId) then -1 else 1
    else 0
  }

  lemma PrecedesTotal(s: string, t: string)
    ensures s == t || Precedes(s, t) || Precedes(t, s)
    ensures !(Precedes(s, t) && Precedes(t, s)) && !Precedes(s, s)
  {
    hide Lexicographic;
    LexicographicTotal(CharBefore, s, t);
  }

  lemma PrecedesTransitive(s: string, t: string, u: string)
    requires Precedes(s, t) && Precedes(t, u)
    ensures Precedes(s, u)
  {
    hide Lexicographic;
    LexicographicTransitive(CharBefore, s, t, u);
  }

  /** A total order: ties are equal stamps. */
  lemma CompareIsTotalOrder(a: Stamp, b: Stamp, c: Stamp)
    ensures Compare(a, b) == -Compare(b, a) && -1 <= Compare(a, b) <= 1
    ensures Compare(a, b) == 0 <==> a == b
    ensures Compare(a, b) < 0 <==>
              || Before(ReadingOf(a), ReadingOf(b))
              || (ReadingOf(a) == ReadingOf(b) && Precedes(a.deviceId, b.deviceId))
    ensures Compare(a, b) <= 0 && Compare(b, c) <= 0 ==> Compare(a, c) <= 0
  {
    PrecedesTotal(a.deviceId, b.deviceId);
    PrecedesTotal(b.deviceId, c.deviceId);
    PrecedesTotal(a.deviceId, c.deviceId);
    if Precedes(a.deviceId, b.deviceId) && Precedes(b.deviceId, c.deviceId) {
      PrecedesTransitive(a.deviceId, b.deviceId, c.deviceId);
    }
  }

  // ------------------------------------------------------------------
  // The clock
  // ------------------------------------------------------------------

  /** What a clock remembers. */
  datatype Reading = Reading(physicalMs: nat, logical: nat)

  predicate Before(a: Reading, b: Reading) {
    a.physicalMs < b.physicalMs || (a.physicalMs == b.physicalMs && a.logical < b.logical)
  }

  function ReadingOf(s: Stamp): Reading {
    Reading(s.physicalMs, s.logical)
  }

  function Sent(last: Reading, wall: nat): Reading {
    if wall > last.physicalMs then Reading(wall, 0) else last.(logical := last.logical + 1)
  }

  function Received(last: Reading, wall: nat, remote: Stamp): Reading {
    var pulled := Min(remote.physicalMs, wall + MAX_CLOCK_DRIFT_MS);
    var most := Max(wall, Max(pulled, last.physicalMs));
    Reading(most,
            if most == last.physicalMs && most == pulled then Max(last.logical, remote.logical) + 1
            else if most == last.physicalMs then last.logical + 1
            else if most == pulled then remote.logical + 1
            else 0)
  }

  function Restored(last: Reading, saved: Stamp): Reading {
    if Before(last, ReadingOf(saved)) then ReadingOf(saved) else last
  }

  /** Later than everything so far and not before the wall clock, and no later than that takes. */
  lemma SentIsLeast(last: Reading, wall: nat, other: Reading)
    ensures var r := Sent(last, wall);
            && Before(last, r) && wall <= r.physicalMs
            && (Before(last, other) && wall <= other.physicalMs ==> r == other || Before(r, other))
  {
  }

  /** What a clock takes a remote stamp for: at most the allowed drift ahead of its wall clock. */
  function Clamped(wall: nat, remote: Stamp): Reading {
    Reading(Min(remote.physicalMs, wall + MAX_CLOCK_DRIFT_MS), remote.logical)
  }

  /**
   * A receive gives the least reading later than everything so far and than the clamped remote stamp, and not before
   * the wall clock.
   */
  lemma ReceivedIsLeast(last: Reading, wall: nat, remote: Stamp, other: Reading)
    ensures var (r, heard) := (Received(last, wall, remote), Clamped(wall, remote));
            && Before(last, r) && Before(heard, r) && wall <= r.physicalMs
            && (Before(last, other) && Before(heard, other) && wall <= other.physicalMs ==>
                  r == other || Before(r, other))
  {
  }

  class HlcClock {
    const deviceId: string
    var lastPhysicalMs: nat
    var lastLogical: nat

    function Last(): Reading
      reads this
    {
      Reading(lastPhysicalMs, lastLogical)
    }

    constructor (deviceId: string)
      ensures this.deviceId == deviceId && Last() == Reading(0, 0)
    {
      this.deviceId := deviceId;
      lastPhysicalMs, lastLogical := 0, 0;
    }

    /** Whatever the wall clock says, later than everything so far. */
    method Send(wall: nat) returns (s: Stamp)
      modifies this
      ensures s.deviceId == deviceId && ReadingOf(s) == Last() == Sent(old(Last()), wall)
      ensures Before(old(Last()), Last()) && wall <= lastPhysicalMs
    {
      if wall > lastPhysicalMs {
        lastPhysicalMs := wall;
        lastLogical := 0;
      } else {
        lastLogical := lastLogical + 1;
      }
      s := Stamp(lastPhysicalMs, lastLogical, deviceId);
    }

    /**
     * Later than everything so far, and than the remote stamp unless that one is more than the allowed drift
     * ahead of the wall clock (and of this clock).
     */
    method Receive(wall: nat, remote: Stamp) returns (s: Stamp)
      modifies this
      ensures s.deviceId == deviceId && ReadingOf(s) == Last() == Received(old(Last()), wall, remote)
      ensures Before(old(Last()), Last()) && wall <= lastPhysicalMs
      ensures Before(ReadingOf(remote), Last()) <==>
                || remote.physicalMs <= wall + MAX_CLOCK_DRIFT_MS
                || Before(ReadingOf(remote), old(Last()).(logical := old(lastLogical) + 1))
    {
      var remotePhysical := Min(remote.physicalMs, wall + MAX_CLOCK_DRIFT_MS);
      var maxPhysical := Max(wall, Max(remotePhysical, lastPhysicalMs));
      var logical;
      if maxPhysical == lastPhysicalMs && maxPhysical == remotePhysical {
        logical := Max(lastLogical, remote.logical) + 1;
      } else if maxPhysical == lastPhysicalMs {
        logical := lastLogical + 1;
      } else if maxPhysical == remotePhysical {
        logical := remote.logical + 1;
      } else {
        logical := 0;
      }
      lastPhysicalMs := maxPhysical;
      lastLogical := logical;
      s := Stamp(maxPhysical, logical, deviceId);
    }

    /** Never goes back. */
    method Restore(saved: Stamp)
      modifies this
      ensures Last() == Restored(old(Last()), saved)
      ensures !Before(Last(), old(Last())) && !Before(Last(), ReadingOf(saved))
      ensures Last() == old(Last()) || Last() == ReadingOf(saved)
    {
      if saved.physicalMs > lastPhysicalMs || (saved.physicalMs == lastPhysicalMs && saved.logical > lastLogical) {
        lastPhysicalMs := saved.physicalMs;
        lastLogical := saved.logical;
      }
    }
  }

  // ------------------------------------------------------------------
  // Runs of one clock
  // ------------------------------------------------------------------

  datatype Event = Sends(wall: nat) | Receives(wall: nat, remote: Stamp) | Restores(saved: Stamp)

  function Tick(last: Reading, e: Event): Reading {
    match e
    case Sends(wall) => Sent(last, wall)
    case Receives(wall, remote) => Received(last, wall, remote)
    case Restores(saved) => Restored(last, saved)
  }

  /** The clock after some events; every event but a restore issues a stamp with this reading. */
  function After(events: seq<Event>): Reading {
    if events == [] then Reading(0, 0) else Tick(After(events[..|events| - 1]), events[|events| - 1])
  }

  lemma {:induction false} ReadingsNeverFall(events: seq<Event>, i: nat)
    requires i <= |events|
    ensures !Before(After(events), After(events[..i]))
  {
    if i < |events| {
      ReadingsNeverFall(events[..|events| - 1], i);
      assert events[..|events| - 1][..i] == events[..i];
    } else {
      assert events[..i] == events;
    }
  }

  /** Over any run, wall clocks jumping back and restores included, each stamp issued is later than the ones before. */
  lemma StampsIncrease(events: seq<Event>, i: nat, j: nat)
    requires i < j < |events| && !events[i].Restores? && !events[j].Restores?
    ensures Before(After(events[..i + 1]), After(events[..j + 1]))
  {
    ReadingsNeverFall(events[..j], i + 1);
    assert events[..j][..i + 1] == events[..i + 1];
    assert events[..j + 1][..j] == events[..j];
  }

  function LatestWall(events: seq<Event>): nat {
    if events == [] then 0
    else
      var e := events[|events| - 1];
      Max(LatestWall(events[..|events| - 1]), if e.Restores? then 0 else e.wall)
  }

  /** Nothing a remote says takes the clock more than the drift past the latest wall reading of its own. */
  lemma {:induction false} DriftIsBounded(events: seq<Event>)
    requires forall e | e in events :: !e.Restores?
    ensures After(events).physicalMs <= LatestWall(events) + MAX_CLOCK_DRIFT_MS
  {
    if events != [] {
      DriftIsBounded(events[..|events| - 1]);
    }
  }

  // ------------------------------------------------------------------
  // The sortable string
  // ------------------------------------------------------------------

  const PHYSICAL_DIGITS: nat := 14
  const LOGICAL_DIGITS: nat := 8

  /** `toString(16)`. */
  function ToHex(n: nat): (s: string)
    ensures s != "" && '-' !in s
  {
    if n < 16 then [HexDigit(n)] else ToHex(n / 16) + [HexDigit(n % 16)]
  }

  /** `padStart(width, "0")`. */
  function PadStart(s: string, width: nat): (t: string)
    ensures |t| >= |s| && |t| >= width
    decreases width - |s|
  {
    if |s| >= width then s else PadStart("0" + s, width)
  }

  function Dashed(field: string, tail: string): string {
    field + ("-" + tail)
  }

  function Encode(h: Stamp): string {
    Dashed(PadStart(ToHex(h.physicalMs), PHYSICAL_DIGITS),
           Dashed(PadStart(ToHex(h.logical), LOGICAL_DIGITS), h.deviceId))
  }

  function DigitValue(c: char): Option<nat> {
    if IsLowerHex(c) then Some(Nibble(c))
    else if 'A' <= c <= 'F' then Some((c - 'A') as nat + 10)
    else None
  }

  /** How many hex digits a string starts with. */
  function HexPrefix(s: string): (n: nat)
    ensures n <= |s|
  {
    if s == "" || DigitValue(s[0]).None? then 0 else 1 + HexPrefix(s[1..])
  }

  function HexValue(s: string): nat {
    if s == "" then 0
    else
      var d := DigitValue(s[|s| - 1]);
      HexValue(s[..|s| - 1]) * 16 + if d.Some? then d.value else 0
  }

  /** `parseInt(s, 16)`: the number of the leading digits, or not a number when there are none. */
  function ParseHex(s: string): Option<nat> {
    if HexPrefix(s) == 0 then None else Some(HexValue(s[..HexPrefix(s)]))
  }

  /** `indexOf("-", from)`. */
  function IndexOfDash(s: string, from: nat): Option<nat>
    decreases |s| - from
  {
    if from >= |s| then None else if s[from] == '-' then Some(from) else IndexOfDash(s, from + 1)
  }

  function Decode(s: string): Option<Stamp> {
    var first := IndexOfDash(s, 0);
    if first != Some(14) then None
    else
      var second := IndexOfDash(s, 15);
      if second != Some(23) || |s| <= 23 then None
      else
        var physical, logical, deviceId := ParseHex(s[..14]), ParseHex(s[15..23]), s[24..];
        if physical.None? || logical.None? || deviceId == "" then None
        else Some(Stamp(physical.value, logical.value, deviceId))
  }

  function Power16(n: nat): (p: nat)
    ensures p > 0
  {
    if n == 0 then 1 else 16 * Power16(n - 1)
  }

  /** The digits of a number, exactly `width` of them. */
  function Fixed(n: nat, width: nat): (s: string)
    ensures |s| == width
  {
    if width == 0 then "" else Fixed(n / 16, width - 1) + [HexDigit(n % 16)]
  }

  lemma {:induction false} PadSnoc(s: string, c: char, width: nat)
    requires width > 0
    ensures PadStart(s + [c], width) == PadStart(s, width - 1) + [c]
    decreases width - |s|
  {
    if |s| < width - 1 {
      PadSnoc("0" + s, c, width);
      assert "0" + s + [c] == "0" + (s + [c]);
    }
  }

  lemma {:induction false} PadZeroes(width: nat)
    ensures PadStart("", width) == Fixed(0, width)
  {
    if width > 0 {
      PadZeroes(width - 1);
      PadSnoc("", '0', width);
      assert "" + ['0'] == "0" && "0" + "" == "0";
    }
  }

  /** Within its width a number is padded to exactly that width; beyond it, it is longer. */
  lemma {:induction false} PaddedIsFixed(n: nat, width: nat)
    requires width > 0
    ensures n < Power16(width) ==> PadStart(ToHex(n), width) == Fixed(n, width)
    ensures n >= Power16(width) ==> PadStart(ToHex(n), width) == ToHex(n) && |ToHex(n)| > width
  {
    if n < 16 {
      PadSnoc("", HexDigit(n), width);
      PadZeroes(width - 1);
      assert "" + [HexDigit(n)] == [HexDigit(n)];
      assert Power16(width) == 16 * Power16(width - 1);
    } else if width == 1 {
      assert Power16(1) == 16 * Power16(0);
    } else {
      PaddedIsFixed(n / 16, width - 1);
      PadSnoc(ToHex(n / 16), HexDigit(n % 16), width);
      assert n < Power16(width) <==> n / 16 < Power16(width - 1);
    }
  }

  // Reading back.

  lemma {:induction false} FixedReads(n: nat, width: nat)
    requires n < Power16(width)
    ensures HexValue(Fixed(n, width)) == n
    ensures forall c | c in Fixed(n, width) :: DigitValue(c).Some?
  {
    if width > 0 {
      FixedReads(n / 16, width - 1);
      assert Fixed(n, width)[..width - 1] == Fixed(n / 16, width - 1);
    }
  }

  lemma {:induction false} AllHex(s: string)
    requires forall c | c in s :: DigitValue(c).Some?
    ensures HexPrefix(s) == |s|
  {
    if s != "" {
      AllHex(s[1..]);
    }
  }

  lemma FixedParses(n: nat, width: nat)
    requires 0 < width && n < Power16(width)
    ensures ParseHex(Fixed(n, width)) == Some(n) && '-' !in Fixed(n, width)
  {
    FixedReads(n, width);
    AllHex(Fixed(n, width));
    assert Fixed(n, width)[..width] == Fixed(n, width);
  }

  lemma {:induction false} DashAt(s: string, from: nat, k: nat)
    requires from <= k < |s| && s[k] == '-' && forall i | from <= i < k :: s[i] != '-'
    ensures IndexOfDash(s, from) == Some(k)
    decreases k - from
  {
    if from < k {
      DashAt(s, from + 1, k);
    }
  }

  lemma {:induction false} PadHasNoDash(s: string, width: nat)
    requires '-' !in s
    ensures '-' !in PadStart(s, width)
    decreases width - |s|
  {
    if |s| < width {
      PadHasNoDash("0" + s, width);
    }
  }

  predicate Fits(h: Stamp) {
    h.physicalMs < Power16(PHYSICAL_DIGITS) && h.logical < Power16(LOGICAL_DIGITS)
  }

  lemma CutSuffix(s: string, from: nat, n: nat)
    requires from + n < |s|
    ensures s[from..from + n] == s[from..][..n] && s[from + n] == s[from..][n]
    ensures s[from + n + 1..] == s[from..][n + 1..]
  {
  }

  lemma CutField(field: string, tail: string)
    ensures var w := Dashed(field, tail);
            && |w| == |field| + 1 + |tail|
            && w[..|field|] == field && w[|field|] == '-' && w[|field| + 1..] == tail
  {
  }

  /** A field without a dash is read off up to the dash after it. */
  lemma ReadField(s: string, from: nat, field: string, tail: string)
    requires from <= |s| && s[from..] == Dashed(field, tail) && '-' !in field
    ensures var end := from + |field|;
            && |s| == end + 1 + |tail|
            && IndexOfDash(s, from) == Some(end) && s[from..end] == field && s[end + 1..] == tail
  {
    hide IndexOfDash, Dashed;
    var end := from + |field|;
    CutField(field, tail);
    CutSuffix(s, from, |field|);
    forall i | from <= i < end
      ensures s[i] != '-'
    {
      assert s[from..end][i - from] == s[i];
    }
    DashAt(s, from, end);
  }

  lemma TwoDashes(p: string, l: string, d: string)
    requires '-' !in p && '-' !in l
    ensures var s := Dashed(p, Dashed(l, d));
            && |s| == |p| + |l| + 2 + |d|
            && IndexOfDash(s, 0) == Some(|p|) && IndexOfDash(s, |p| + 1) == Some(|p| + 1 + |l|)
            && s[0..|p|] == p && s[|p| + 1..|p| + 1 + |l|] == l && s[|p| + 1 + |l| + 1..] == d
  {
    hide IndexOfDash, Dashed;
    var s := Dashed(p, Dashed(l, d));
    assert s[0..] == s;
    ReadField(s, 0, p, Dashed(l, d));
    ReadField(s, |p| + 1, l, d);
  }

  /** What a string of three fields decodes to. */
  lemma DecodeFields(p: string, l: string, d: string)
    requires '-' !in p && '-' !in l
    ensures Decode(Dashed(p, Dashed(l, d)))
         == if |p| != PHYSICAL_DIGITS || |l| != LOGICAL_DIGITS || d == "" || ParseHex(p).None? || ParseHex(l).None?
            then None else Some(Stamp(ParseHex(p).value, ParseHex(l).value, d))
  {
    hide IndexOfDash, ParseHex, Dashed;
    var s := Dashed(p, Dashed(l, d));
    TwoDashes(p, l, d);
    assert s[..|p|] == s[0..|p|];
  }

  /** Within the digit widths, and for a device that has a name, decoding inverts encoding; nothing else decodes. */
  lemma EncodeRoundTrip(h: Stamp)
    ensures Decode(Encode(h)) == if Fits(h) && h.deviceId != "" then Some(h) else None
  {
    var p, l := PadStart(ToHex(h.physicalMs), PHYSICAL_DIGITS), PadStart(ToHex(h.logical), LOGICAL_DIGITS);
    hide PadStart, ToHex, Fixed, ParseHex, Power16, Decode, Dashed;
    PadHasNoDash(ToHex(h.physicalMs), PHYSICAL_DIGITS);
    PadHasNoDash(ToHex(h.logical), LOGICAL_DIGITS);
    PaddedIsFixed(h.physicalMs, PHYSICAL_DIGITS);
    PaddedIsFixed(h.logical, LOGICAL_DIGITS);
    DecodeFields(p, l, h.deviceId);
    if h.physicalMs < Power16(PHYSICAL_DIGITS) {
      FixedParses(h.physicalMs, PHYSICAL_DIGITS);
    }
    if h.logical < Power16(LOGICAL_DIGITS) {
      FixedParses(h.logical, LOGICAL_DIGITS);
    }
  }

  // Order.

  lemma PrecedesJoin(a: string, b: string, c: string, d: string)
    requires |a| == |b|
    ensures Precedes(a + c, b + d) <==> Precedes(a, b) || (a == b && Precedes(c, d))
  {
    hide Lexicographic;
    LexicographicJoin(CharBefore, a, b, c, d);
  }

  lemma {:induction false} FixedOrder(m: nat, n: nat, width: nat)
    requires m < Power16(width) && n < Power16(width)
    ensures Precedes(Fixed(m, width), Fixed(n, width)) <==> m < n
    ensures Fixed(m, width) == Fixed(n, width) <==> m == n
  {
    if width > 0 {
      var a, b := Fixed(m / 16, width - 1), Fixed(n / 16, width - 1);
      FixedOrder(m / 16, n / 16, width - 1);
      PrecedesJoin(a, b, [HexDigit(m % 16)], [HexDigit(n % 16)]);
      assert Fixed(m, width)[..width - 1] == a && Fixed(n, width)[..width - 1] == b;
      assert Fixed(m, width)[width - 1] == HexDigit(m % 16) && Fixed(n, width)[width - 1] == HexDigit(n % 16);
      DigitOrder(m % 16, n % 16);
    }
  }

  lemma DigitOrder(m: nat, n: nat)
    requires m < 16 && n < 16
    ensures Precedes([HexDigit(m)], [HexDigit(n)]) <==> m < n
    ensures HexDigit(m) == HexDigit(n) <==> m == n
  {
    var c, d := [HexDigit(m)], [HexDigit(n)];
    assert CharBefore(c[0], d[0]) <==> m < n;
    assert c[1..] == d[1..] == [] && !Lexicographic(CharBefore, c[1..], d[1..]);
  }

  /** Within the digit widths the strings sort as the stamps do. */
  lemma EncodingKeepsOrder(h: Stamp, g: Stamp)
    requires Fits(h) && Fits(g)
    ensures Precedes(Encode(h), Encode(g)) <==> Compare(h, g) < 0
  {
    var p, q := Fixed(h.physicalMs, PHYSICAL_DIGITS), Fixed(g.physicalMs, PHYSICAL_DIGITS);
    var l, m := Fixed(h.logical, LOGICAL_DIGITS), Fixed(g.logical, LOGICAL_DIGITS);
    PaddedIsFixed(h.physicalMs, PHYSICAL_DIGITS);
    PaddedIsFixed(g.physicalMs, PHYSICAL_DIGITS);
    PaddedIsFixed(h.logical, LOGICAL_DIGITS);
    PaddedIsFixed(g.logical, LOGICAL_DIGITS);
    FixedOrder(h.physicalMs, g.physicalMs, PHYSICAL_DIGITS);
    FixedOrder(h.logical, g.logical, LOGICAL_DIGITS);
    PrecedesTotal(h.deviceId, h.deviceId);
    hide Fixed, PadStart, ToHex, Power16, Precedes, Dashed;
    DashedOrder(p, q, Dashed(l, h.deviceId), Dashed(m, g.deviceId));
    DashedOrder(l, m, h.deviceId, g.deviceId);
  }

  lemma DashedOrder(a: string, b: string, c: string, d: string)
    requires |a| == |b|
    ensures Precedes(Dashed(a, c), Dashed(b, d)) <==> Precedes(a, b) || (a == b && Precedes(c, d))
  {
    hide Precedes;
    PrecedesJoin(a, b, "-" + c, "-" + d);
    PrecedesJoin("-", "-", c, d);
    PrecedesTotal("-", "-");
  }

  /** Beyond the width the order can turn round: one more digit sorts before a greater one. */
  lemma OrderNeedsTheWidth(deviceId: string)
    ensures var n := Power16(PHYSICAL_DIGITS);
            var (h, g) := (Stamp(n, 0, deviceId), Stamp(n - 1, 0, deviceId));
            Compare(h, g) > 0 && Precedes(Encode(h), Encode(g))
  {
    var n := Power16(PHYSICAL_DIGITS);
    hide Power16, Fixed, PadStart, ToHex, Lexicographic;
    PaddedIsFixed(n, PHYSICAL_DIGITS);
    PaddedIsFixed(n - 1, PHYSICAL_DIGITS);
    HexOfPower(PHYSICAL_DIGITS);
    FixedTop(PHYSICAL_DIGITS);
    var p, q := ToHex(n), Fixed(n - 1, PHYSICAL_DIGITS);
    var l := Dashed(PadStart(ToHex(0), LOGICAL_DIGITS), deviceId);
    assert Dashed(p, l)[0] == p[0] && Dashed(q, l)[0] == q[0];
    FirstDecides(Dashed(p, l), Dashed(q, l));
  }

  lemma FirstDecides(s: string, t: string)
    requires s != "" && t != "" && s[0] < t[0]
    ensures Precedes(s, t)
  {
    assert CharBefore(s[0], t[0]);
  }

  lemma {:induction false} HexOfPower(k: nat)
    ensures ToHex(Power16(k))[0] == '1'
  {
    if k > 0 {
      HexOfPower(k - 1);
      assert Power16(k) / 16 == Power16(k - 1);
    }
  }

  lemma {:induction false} FixedTop(width: nat)
    requires width > 0
    ensures Fixed(Power16(width) - 1, width)[0] == 'f'
  {
    if width > 1 {
      FixedTop(width - 1);
      assert (Power16(width) - 1) / 16 == Power16(width - 1) - 1;
    } else {
      assert Power16(1) == 16 * Power16(0);
      assert Fixed(15, 1) == Fixed(0, 0) + [HexDigit(15)];
    }
  }
}
