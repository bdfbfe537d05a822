/**
 * Paths into the Files tree: what a caller's string names, and the one spelling it is given. A path is a
 * walk from the root, and a walk that would leave the root names nothing.
 */
module VfsPaths {
  import opened Wrappers

  const MAX_PATH: nat := 4096

  // ------------------------------------------------------------------
  // Segments
  // ------------------------------------------------------------------

  /** The parts between slashes; there is always at least one, and any may be empty. */
  function Segments(path: string): (segments: seq<string>)
    ensures |segments| > 0
  {
    if path == "" then [""]
    else if path[0] == '/' then [""] + Segments(path[1..])
    else
      var rest := Segments(path[1..]);
      [[path[0]] + rest[0]] + rest[1..]
  }

  function Join(parts: seq<string>): string {
    if parts == [] then "" else if |parts| == 1 then parts[0] else parts[0] + "/" + Join(parts[1..])
  }

  lemma {:induction false} SegmentsOfPlain(part: string)
    requires '/' !in part
    ensures Segments(part) == [part]
  {
    if part != "" {
      SegmentsOfPlain(part[1..]);
      assert part[0] in part && part == [part[0]] + part[1..];
    }
  }

  lemma {:induction false} SegmentsAfterSlash(part: string, rest: string)
    requires '/' !in part
    ensures Segments(part + "/" + rest) == [part] + Segments(rest)
  {
    var path := part + "/" + rest;
    if part == "" {
      assert path == "/" + rest;
      assert path[1..] == rest;
    } else {
      SegmentsAfterSlash(part[1..], rest);
      assert path[1..] == part[1..] + "/" + rest;
      assert [part[0]] + part[1..] == part;
      var after := Segments(path[1..]);
      assert after[0] == part[1..] && after[1..] == Segments(rest);
    }
  }

  lemma {:induction false} SegmentsOfJoin(parts: seq<string>)
    requires parts != [] && forall p | p in parts :: '/' !in p
    ensures Segments(Join(parts)) == parts
  {
    if |parts| == 1 {
      SegmentsOfPlain(parts[0]);
      assert parts == [parts[0]];
    } else {
      SegmentsOfJoin(parts[1..]);
      SegmentsAfterSlash(parts[0], Join(parts[1..]));
      assert parts == [parts[0]] + parts[1..];
    }
  }

  // ------------------------------------------------------------------
  // Walking
  // ------------------------------------------------------------------

  predicate Stays(segment: string) {
    segment == "" || segment == "."
  }

  /** Where a walk from `at` ends, or nowhere once it steps above the root. */
  function Walk(at: seq<string>, segments: seq<string>): Option<seq<string>>
    decreases |segments|
  {
    if segments == [] then Some(at)
    else
      var s, rest := segments[0], segments[1..];
      if Stays(s) then Walk(at, rest)
      else if s == ".." then if at == [] then None else Walk(at[..|at| - 1], rest)
      else Walk(at + [s], rest)
  }

  function Resolve(path: string): Option<seq<string>> {
    Walk([], Segments(path))
  }

  /** How far down a walk ends, with no regard to the root. */
  function Descent(segments: seq<string>): int {
    if segments == [] then 0
    else Descent(segments[..|segments| - 1])
         + (if Stays(segments[|segments| - 1]) then 0 else if segments[|segments| - 1] == ".." then -1 else 1)
  }

  lemma {:induction false} DescentCons(s: string, rest: seq<string>)
    ensures Descent([s] + rest) == (if Stays(s) then 0 else if s == ".." then -1 else 1) + Descent(rest)
  {
    if rest == [] {
      assert [s] + rest == [s] && [s][..0] == [];
    } else {
      DescentCons(s, rest[..|rest| - 1]);
      assert ([s] + rest)[..|rest|] == [s] + rest[..|rest| - 1];
    }
  }

  /** The walk of a prefix goes above the root. */
  ghost predicate Escapes(depth: nat, segments: seq<string>) {
    exists k | 0 <= k <= |segments| :: depth + Descent(segments[..k]) < 0
  }

  lemma EscapesCons(depth: nat, segments: seq<string>)
    requires segments != []
    ensures var s := segments[0];
            var d := if Stays(s) then 0 else if s == ".." then -1 else 1;
            Escapes(depth, segments) <==> depth + d < 0 || Escapes(depth + d, segments[1..])
  {
    var s, rest := segments[0], segments[1..];
    var d := if Stays(s) then 0 else if s == ".." then -1 else 1;
    forall k | 0 <= k <= |rest|
      ensures Descent(segments[..k + 1]) == d + Descent(rest[..k])
    {
      assert segments[..k + 1] == [s] + rest[..k];
      DescentCons(s, rest[..k]);
    }
    assert Descent(segments[..0]) == 0;
    if Escapes(depth, segments) {
      var k :| 0 <= k <= |segments| && depth + Descent(segments[..k]) < 0;
      assert k > 0 && Descent(segments[..(k - 1) + 1]) == d + Descent(rest[..k - 1]);
    }
    if depth + d < 0 {
      assert rest[..0] == [] && Descent(segments[..0 + 1]) == d + Descent(rest[..0]);
    } else if Escapes(depth + d, rest) {
      var k :| 0 <= k <= |rest| && depth + d + Descent(rest[..k]) < 0;
      assert Descent(segments[..k + 1]) == d + Descent(rest[..k]);
    }
  }

  /** A walk leads nowhere exactly when some prefix of it goes up more often than down. */
  lemma {:induction false} WalkFailsWhenItEscapes(at: seq<string>, segments: seq<string>)
    ensures Walk(at, segments).None? <==> Escapes(|at|, segments)
    decreases |segments|
  {
    if segments == [] {
      assert forall k | 0 <= k <= 0 :: segments[..k] == [];
    } else {
      var s, rest := segments[0], segments[1..];
      EscapesCons(|at|, segments);
      if Stays(s) {
        WalkFailsWhenItEscapes(at, rest);
      } else if s != ".." {
        WalkFailsWhenItEscapes(at + [s], rest);
      } else if at != [] {
        WalkFailsWhenItEscapes(at[..|at| - 1], rest);
      }
    }
  }

  /** A plain name: what a segment of a normal path is. */
  ghost predicate Plain(part: string) {
    !Stays(part) && part != ".." && '/' !in part
  }

  /** A walk in two parts. */
  lemma {:induction false} WalkOn(at: seq<string>, segments: seq<string>, more: seq<string>)
    ensures Walk(at, segments + more)
         == match Walk(at, segments)
            case None => None
            case Some(there) => Walk(there, more)
    decreases |segments|
  {
    if segments == [] {
      assert segments + more == more;
    } else {
      var s, rest := segments[0], segments[1..];
      assert (segments + more)[1..] == rest + more;
      if Stays(s) {
        WalkOn(at, rest, more);
      } else if s != ".." {
        WalkOn(at + [s], rest, more);
      } else if at != [] {
        WalkOn(at[..|at| - 1], rest, more);
      }
    }
  }

  /** Wherever it stands, a name followed by `..` cancels: `..` goes back on the last name, and on that alone. */
  lemma NameThenUpCancels(at: seq<string>, before: seq<string>, name: string, after: seq<string>)
    requires Plain(name)
    ensures Walk(at, before + [name, ".."] + after) == Walk(at, before + after)
  {
    assert before + [name, ".."] + after == before + ([name, ".."] + after);
    WalkOn(at, before, [name, ".."] + after);
    WalkOn(at, before, after);
    if Walk(at, before).Some? {
      var there := Walk(at, before).value;
      WalkOn(there, [name, ".."], after);
      assert [name, ".."][1..] == [".."];
      assert (there + [name])[..|there|] == there;
    }
  }

  /** And an empty segment or a `.` changes nothing. */
  lemma DotIsSkipped(at: seq<string>, before: seq<string>, dot: string, after: seq<string>)
    requires Stays(dot)
    ensures Walk(at, before + [dot] + after) == Walk(at, before + after)
  {
    assert before + [dot] + after == before + ([dot] + after);
    WalkOn(at, before, [dot] + after);
    WalkOn(at, before, after);
  }

  lemma {:induction false} WalkPlain(at: seq<string>, parts: seq<string>)
    requires forall p | p in parts :: Plain(p)
    ensures Walk(at, parts) == Some(at + parts)
    decreases |parts|
  {
    if parts == [] {
      assert at + parts == at;
    } else {
      assert Plain(parts[0]);
      WalkPlain(at + [parts[0]], parts[1..]);
      assert at + [parts[0]] + parts[1..] == at + parts;
    }
  }

  lemma {:induction false} WalkStaysPlain(at: seq<string>, segments: seq<string>)
    requires (forall p | p in at :: Plain(p)) && (forall s | s in segments :: '/' !in s)
    ensures Walk(at, segments).Some? ==> forall p | p in Walk(at, segments).value :: Plain(p)
    decreases |segments|
  {
    if segments != [] {
      var s, rest := segments[0], segments[1..];
      if Stays(s) {
        WalkStaysPlain(at, rest);
      } else if s != ".." {
        WalkStaysPlain(at + [s], rest);
      } else if at != [] {
        WalkStaysPlain(at[..|at| - 1], rest);
      }
    }
  }

  lemma {:induction false} SegmentsHaveNoSlash(path: string)
    ensures forall s | s in Segments(path) :: '/' !in s
  {
    if path != "" {
      SegmentsHaveNoSlash(path[1..]);
      var rest := Segments(path[1..]);
      assert rest[0] in rest;
    }
  }

  // ------------------------------------------------------------------
  // The normal form
  // ------------------------------------------------------------------

  predicate Admissible(path: string) {
    1 <= |path| <= MAX_PATH && '\0' !in path
  }

  function Spell(place: seq<string>): string {
    "/" + Join(place)
  }

  function Normalised(path: string): Option<string> {
    if !Admissible(path) || Resolve(path).None? then None else Some(Spell(Resolve(path).value))
  }

  /** `normalize_vfs_path` and `normalizeVfsPath`. */
  method NormalizeVfsPath(path: string) returns (r: Option<string>)
    ensures r == Normalised(path)
  {
    if path == "" || |path| > MAX_PATH || '\0' in path {
      return None;
    }
    var segments := Segments(path);
    var parts: seq<string> := [];
    assert segments[0..] == segments;
    for i := 0 to |segments|
      invariant Walk(parts, segments[i..]) == Resolve(path)
    {
      var segment := segments[i];
      assert segments[i..][1..] == segments[i + 1..];
      if segment == "" || segment == "." {
        continue;
      }
      if segment == ".." {
        if parts == [] {
          return None;
        }
        parts := parts[..|parts| - 1];
        continue;
      }
      parts := parts + [segment];
    }
    r := Some("/" + Join(parts));
  }

  lemma SpellResolves(place: seq<string>)
    requires forall p | p in place :: Plain(p)
    ensures Resolve(Spell(place)) == Some(place)
  {
    var path := Spell(place);
    assert path == "" + "/" + Join(place);
    SegmentsAfterSlash("", Join(place));
    if place == [] {
      assert Segments("") == [""];
      assert Segments(path) == ["", ""];
      assert Walk([], ["", ""]) == Walk([], ["", ""][1..]);
    } else {
      SegmentsOfJoin(place);
      assert Segments(path)[1..] == place;
      WalkPlain([], place);
      assert [] + place == place;
    }
  }

  lemma PlaceIsPlain(path: string)
    requires Resolve(path).Some?
    ensures forall p | p in Resolve(path).value :: Plain(p)
  {
    SegmentsHaveNoSlash(path);
    WalkStaysPlain([], Segments(path));
  }

  /**
   * What normalising means: a path is refused exactly when it is inadmissible or escapes the root; otherwise
   * its normal form names the same place, in names only.
   */
  lemma NormalFormNamesTheSamePlace(path: string)
    ensures Normalised(path).None? <==> !Admissible(path) || Escapes(0, Segments(path))
    ensures Normalised(path).Some? ==>
              && Resolve(Normalised(path).value) == Resolve(path)
              && forall p | p in Resolve(path).value :: Plain(p)
  {
    WalkFailsWhenItEscapes([], Segments(path));
    if Normalised(path).Some? {
      PlaceIsPlain(path);
      SpellResolves(Resolve(path).value);
    }
  }

  /** Two admissible paths have one normal form exactly when they name one place. */
  lemma OneSpellingPerPlace(p: string, q: string)
    requires Admissible(p) && Admissible(q)
    ensures Normalised(p) == Normalised(q) <==> Resolve(p) == Resolve(q)
  {
    NormalFormNamesTheSamePlace(p);
    NormalFormNamesTheSamePlace(q);
  }

  // ------------------------------------------------------------------
  // Normalising again
  // ------------------------------------------------------------------

  lemma {:induction false} NoNulInJoin(parts: seq<string>)
    requires forall p | p in parts :: '\0' !in p
    ensures '\0' !in Join(parts)
  {
    if |parts| > 1 {
      NoNulInJoin(parts[1..]);
    }
  }

  lemma {:induction false} NoNulInSegments(path: string)
    requires '\0' !in path
    ensures forall s | s in Segments(path) :: '\0' !in s
  {
    if path != "" {
      NoNulInSegments(path[1..]);
      var rest := Segments(path[1..]);
      assert rest[0] in rest;
    }
  }

  lemma {:induction false} WalkKeepsNames(at: seq<string>, segments: seq<string>)
    ensures Walk(at, segments).Some? ==> forall p | p in Walk(at, segments).value :: p in at || p in segments
    decreases |segments|
  {
    if segments != [] {
      var s, rest := segments[0], segments[1..];
      if Stays(s) {
        WalkKeepsNames(at, rest);
      } else if s != ".." {
        WalkKeepsNames(at + [s], rest);
      } else if at != [] {
        WalkKeepsNames(at[..|at| - 1], rest);
      }
    }
  }

  /**
   * A normal form is its own normal form exactly when it is not too long to be a path: the leading slash
   * that normalising may add is not counted against the limit.
   */
  lemma NormalisedTwice(path: string)
    requires Normalised(path).Some?
    ensures Normalised(Normalised(path).value) == Normalised(path) <==> |Normalised(path).value| <= MAX_PATH
  {
    var place := Resolve(path).value;
    PlaceIsPlain(path);
    SpellResolves(place);
    NoNulInSegments(path);
    WalkKeepsNames([], Segments(path));
    NoNulInJoin(place);
  }

  /** The length of a segment list on the page. */
  function Width(segments: seq<string>): nat {
    if segments == [] then 0 else |segments[0]| + 1 + Width(segments[1..])
  }

  lemma {:induction false} WidthOfSegments(path: string)
    ensures Width(Segments(path)) == |path| + 1
  {
    if path != "" {
      WidthOfSegments(path[1..]);
    }
  }

  lemma {:induction false} WidthOfJoin(parts: seq<string>)
    ensures parts != [] ==> Width(parts) == |Join(parts)| + 1
  {
    if |parts| > 1 {
      WidthOfJoin(parts[1..]);
    }
  }

  lemma {:induction false} WidthOfBoth(a: seq<string>, b: seq<string>)
    ensures Width(a + b) == Width(a) + Width(b)
  {
    if a == [] {
      assert a + b == b;
    } else {
      WidthOfBoth(a[1..], b);
      assert (a + b)[1..] == a[1..] + b;
    }
  }

  lemma {:induction false} WalkShrinks(at: seq<string>, segments: seq<string>)
    ensures Walk(at, segments).Some? ==> Width(Walk(at, segments).value) <= Width(at) + Width(segments)
    decreases |segments|
  {
    if segments != [] {
      var s, rest := segments[0], segments[1..];
      if Stays(s) {
        WalkShrinks(at, rest);
      } else if s != ".." {
        WalkShrinks(at + [s], rest);
        WidthOfBoth(at, [s]);
      } else if at != [] {
        WalkShrinks(at[..|at| - 1], rest);
        WidthOfBoth(at[..|at| - 1], [at[|at| - 1]]);
        assert at == at[..|at| - 1] + [at[|at| - 1]];
      }
    }
  }

  /** So only a path of the greatest length can have a normal form that is refused. */
  lemma NormalFormIsShort(path: string)
    requires Normalised(path).Some?
    ensures |Normalised(path).value| <= |path| + 1
  {
    WalkShrinks([], Segments(path));
    WidthOfSegments(path);
    WidthOfJoin(Resolve(path).value);
  }

  /** And one such path has: a single name of 4096 characters, without the slash. */
  lemma LongestNameIsRefusedTheSecondTime()
    ensures var path := seq(MAX_PATH, _ => 'a');
            && Normalised(path) == Some("/" + path)
            && Normalised("/" + path) == None
  {
    var path := seq(MAX_PATH, _ => 'a');
    SegmentsOfPlain(path);
    assert Plain(path) by {
      assert |path| == MAX_PATH && '/' !in path;
    }
    WalkPlain([], [path]);
    assert [] + [path] == [path];
    assert Join([path]) == path;
  }
}
