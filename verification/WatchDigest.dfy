/**
 * Change detection by digest: a tree is serialised to a byte stream, the stream is hashed, and a changed hash
 * means a changed tree. That is only as good as the serialisation: equal streams must mean equal trees.
 */
module WatchDigest {
  import Orders
  import Seqs
  import opened Wrappers
  import opened Bytes
  import opened ContentAddresses
  import opened Numbers

  const VFS_MAX_TREE_ENTRIES: nat := 10_000
  const VFS_MAX_TREE_DEPTH: nat := 12

  type Name = seq<byte>

  // ------------------------------------------------------------------
  // The tree on disk
  // ------------------------------------------------------------------

  /** `Other` is a link, a socket or a device; `Gone` an entry that vanished between listing and looking. */
  datatype Node =
    | Dir(readable: bool, entries: seq<Entry>)
    | File(length: u64, mtime: u64)
    | Other
    | Gone

  datatype Entry = Entry(name: Name, node: Node)

  function Ascii(s: string): Name {
    if s == "" then [] else [if s[0] < 128 as char then s[0] as int else 63] + Ascii(s[1..])
  }

  const SKIPPED_DIRS: seq<string> := [
    ".git", ".hg", ".svn", ".suma", "node_modules", ".pnpm-store", ".npm", ".cache", ".cargo", ".rustup", ".Trash",
    "Library"
  ]

  const SKIPPED_FILES: seq<string> := [".DS_Store"]

  predicate Skipped(names: seq<string>, name: Name) {
    exists s | s in names :: Ascii(s) == name
  }

  // ------------------------------------------------------------------
  // Sorting a directory by name
  // ------------------------------------------------------------------

  predicate ByteBefore(a: byte, b: byte) {
    a < b
  }

  predicate NameBefore(e: Entry, f: Entry) {
    Orders.Lexicographic(ByteBefore, e.name, f.name)
  }

  /** `names.sort_by(...)`. */
  function SortByName(entries: seq<Entry>): seq<Entry> {
    Orders.Sort(NameBefore, entries)
  }

  ghost predicate DistinctNames(entries: seq<Entry>) {
    forall i, j | 0 <= i < j < |entries| :: entries[i].name != entries[j].name
  }

  lemma NamesAreOrdered()
    ensures Orders.Asymmetric(NameBefore) && Orders.Transitive(NameBefore)
  {
    forall e, f
      ensures !(NameBefore(e, f) && NameBefore(f, e))
    {
      Orders.LexicographicTotal(ByteBefore, e.name, f.name);
    }
    forall e, f, g | NameBefore(e, f) && NameBefore(f, g)
      ensures NameBefore(e, g)
    {
      Orders.LexicographicTransitive(ByteBefore, e.name, f.name, g.name);
    }
  }

  lemma DistinctAscend(entries: seq<Entry>)
    requires DistinctNames(entries)
    ensures Orders.Ascending(NameBefore, SortByName(entries))
  {
    NamesAreOrdered();
    forall i, j | 0 <= i < j < |entries|
      ensures NameBefore(entries[i], entries[j]) || NameBefore(entries[j], entries[i])
    {
      Orders.LexicographicTotal(ByteBefore, entries[i].name, entries[j].name);
    }
    Orders.SortAscends(NameBefore, entries);
  }

  /** The order in which the system lists a directory makes no difference. */
  lemma ListingOrderIsIrrelevant(a: seq<Entry>, b: seq<Entry>)
    requires DistinctNames(a) && DistinctNames(b) && multiset(a) == multiset(b)
    ensures SortByName(a) == SortByName(b)
  {
    NamesAreOrdered();
    DistinctAscend(a);
    DistinctAscend(b);
    Orders.SortPermutes(NameBefore, a);
    Orders.SortPermutes(NameBefore, b);
    Orders.PermutedMembers(SortByName(a), SortByName(b));
    Orders.AscendingIsUnique(NameBefore, SortByName(a), SortByName(b));
  }

  lemma {:induction false} InsertKeepsSize(e: Entry, sorted: seq<Entry>)
    ensures EntriesSize(Orders.Insert(NameBefore, e, sorted)) == NodeSize(e.node) + EntriesSize(sorted)
  {
    if sorted == [] || NameBefore(e, sorted[0]) {
      assert ([e] + sorted)[1..] == sorted;
    } else {
      InsertKeepsSize(e, sorted[1..]);
      var rest := Orders.Insert(NameBefore, e, sorted[1..]);
      assert ([sorted[0]] + rest)[1..] == rest;
    }
  }

  lemma {:induction false} SizeSnoc(entries: seq<Entry>, last: Entry)
    ensures EntriesSize(entries + [last]) == EntriesSize(entries) + NodeSize(last.node)
  {
    if entries == [] {
      assert [] + [last] == [last] && [last][1..] == [];
    } else {
      SizeSnoc(entries[1..], last);
      assert (entries + [last])[1..] == entries[1..] + [last];
    }
  }

  lemma {:induction false} SortKeepsSize(entries: seq<Entry>)
    ensures EntriesSize(SortByName(entries)) == EntriesSize(entries)
  {
    if entries != [] {
      var n := |entries| - 1;
      SortKeepsSize(entries[..n]);
      InsertKeepsSize(entries[n], SortByName(entries[..n]));
      SizeSnoc(entries[..n], entries[n]);
      assert entries == entries[..n] + [entries[n]];
    }
  }

  function NodeSize(n: Node): (size: nat)
    ensures size > 0
  {
    if n.Dir? then 1 + EntriesSize(n.entries) else 1
  }

  function EntriesSize(entries: seq<Entry>): nat {
    if entries == [] then 0 else NodeSize(entries[0].node) + EntriesSize(entries[1..])
  }

  // ------------------------------------------------------------------
  // What a scan sees, and how it is written down
  // ------------------------------------------------------------------

  datatype Item =
    | FileItem(name: Name, length: u64, mtime: u64)
    | DirItem(name: Name, descended: bool, inner: seq<Item>)

  /** The entries a directory shows, in name order. An unreadable or missing one shows none. */
  function Visible(n: Node, depth: nat): seq<Item>
    decreases NodeSize(n), 0
  {
    if n.Dir? && n.readable then
      SortKeepsSize(n.entries);
      VisibleEntries(SortByName(n.entries), depth)
    else []
  }

  function VisibleEntries(entries: seq<Entry>, depth: nat): seq<Item>
    decreases EntriesSize(entries), |entries| + 1
  {
    if entries == [] then []
    else VisibleEntry(entries[0], depth) + VisibleEntries(entries[1..], depth)
  }

  function VisibleEntry(e: Entry, depth: nat): seq<Item>
    decreases NodeSize(e.node), 1
  {
    match e.node
    case Dir(_, _) =>
      if Skipped(SKIPPED_DIRS, e.name) then []
      else if depth < VFS_MAX_TREE_DEPTH then [DirItem(e.name, true, Visible(e.node, depth + 1))]
      else [DirItem(e.name, false, [])]
    case File(length, mtime) => if Skipped(SKIPPED_FILES, e.name) then [] else [FileItem(e.name, length, mtime)]
    case _ => []
  }

  /** Little-endian bytes. */
  function LittleEndian(n: nat, width: nat): (s: seq<byte>)
    ensures |s| == width
  {
    if width == 0 then [] else [n % 256] + LittleEndian(n / 256, width - 1)
  }

  const SLASH: byte := 47
  const MARK_DIR: byte := 100
  const MARK_FILE: byte := 102

  /** What follows the name and a slash. */
  function KindBytes(i: Item): seq<byte> {
    if i.FileItem? then [MARK_FILE] + (LittleEndian(i.length, 8) + LittleEndian(i.mtime, 8)) else [MARK_DIR]
  }

  function ItemBytes(i: Item): seq<byte> {
    i.name + ([SLASH] + KindBytes(i))
  }

  function Listing(items: seq<Item>): seq<byte> {
    if items == [] then [] else ItemBytes(items[0]) + Listing(items[1..])
  }

  /** A directory's listing, the boundary mark, then its subdirectories, last first. */
  function Serialise(items: seq<Item>): seq<byte>
    decreases items, 1
  {
    Listing(items) + ([0] + Inner(items))
  }

  function Inner(items: seq<Item>): seq<byte>
    decreases items, 0
  {
    if items == [] then []
    else Inner(items[1..]) + if items[0].DirItem? && items[0].descended then Serialise(items[0].inner) else []
  }

  function Count(items: seq<Item>): nat {
    if items == [] then 0
    else 1 + (if items[0].DirItem? then Count(items[0].inner) else 0) + Count(items[1..])
  }

  // ------------------------------------------------------------------
  // Unique decoding
  // ------------------------------------------------------------------

  /** What a file system allows in a name. */
  ghost predicate NameOk(name: Name) {
    name != [] && 0 !in name && SLASH !in name
  }

  ghost predicate NamesOk(n: Node) {
    n.Dir? ==> forall e | e in n.entries :: NameOk(e.name) && NamesOk(e.node)
  }

  /** Directories are descended into exactly down to the depth cap. */
  ghost predicate Shaped(items: seq<Item>, depth: nat)
    decreases items, 1
  {
    forall i | i in items :: ItemShaped(i, depth)
  }

  ghost predicate ItemShaped(i: Item, depth: nat)
    decreases i, 0
  {
    && NameOk(i.name)
    && (i.DirItem? ==> (i.descended <==> depth < VFS_MAX_TREE_DEPTH)
                       && if i.descended then Shaped(i.inner, depth + 1) else i.inner == [])
  }

  lemma {:induction false} VisibleShaped(n: Node, depth: nat)
    requires NamesOk(n)
    ensures Shaped(Visible(n, depth), depth)
    decreases NodeSize(n), 0
  {
    if n.Dir? && n.readable {
      SortKeepsSize(n.entries);
      Orders.SortPermutes(NameBefore, n.entries);
      forall e | e in SortByName(n.entries)
        ensures NameOk(e.name) && NamesOk(e.node)
      {
        Orders.InMultiset(SortByName(n.entries), e);
        Orders.InMultiset(n.entries, e);
      }
      EntriesShaped(SortByName(n.entries), depth);
    }
  }

  lemma {:induction false} EntriesShaped(entries: seq<Entry>, depth: nat)
    requires forall e | e in entries :: NameOk(e.name) && NamesOk(e.node)
    ensures Shaped(VisibleEntries(entries, depth), depth)
    decreases EntriesSize(entries), |entries| + 1
  {
    if entries != [] {
      assert entries[0] in entries;
      if entries[0].node.Dir? {
        VisibleShaped(entries[0].node, depth + 1);
      }
      EntriesShaped(entries[1..], depth);
    }
  }

  function Power(width: nat): nat {
    if width == 0 then 1 else 256 * Power(width - 1)
  }

  lemma {:induction false} LittleEndianUnique(a: nat, b: nat, width: nat)
    requires a < Power(width) && b < Power(width) && LittleEndian(a, width) == LittleEndian(b, width)
    ensures a == b
  {
    if width > 0 {
      var p, q := LittleEndian(a, width), LittleEndian(b, width);
      assert p[0] == q[0] && p[1..] == q[1..];
      LittleEndianUnique(a / 256, b / 256, width - 1);
    }
  }

  lemma Power8()
    ensures Power(8) == 0x1_0000_0000_0000_0000
  {
    assert Power(4) == 0x1_0000_0000;
  }

  lemma CutAt(a: seq<byte>, b: seq<byte>, x: seq<byte>, y: seq<byte>)
    requires a + x == b + y && |a| == |b|
    ensures a == b && x == y
  {
    assert (a + x)[..|a|] == a && (b + y)[..|b|] == b;
    assert (a + x)[|a|..] == x && (b + y)[|b|..] == y;
  }

  lemma FirstSlash(a: Name, x: seq<byte>)
    requires SLASH !in a
    ensures var s := a + ([SLASH] + x);
            s[|a|] == SLASH && forall i | 0 <= i < |a| :: s[i] != SLASH
  {
    var s := a + ([SLASH] + x);
    assert forall i | 0 <= i < |a| :: s[i] == a[i] && a[i] in a;
  }

  /** A name ends at the first slash. */
  lemma NameUnique(a: Name, b: Name, x: seq<byte>, y: seq<byte>)
    requires SLASH !in a && SLASH !in b && a + ([SLASH] + x) == b + ([SLASH] + y)
    ensures a == b && x == y
  {
    FirstSlash(a, x);
    FirstSlash(b, y);
    CutAt(a, b, [SLASH] + x, [SLASH] + y);
    CutAt([SLASH], [SLASH], x, y);
  }

  /** The same but for what is inside a directory. */
  predicate SameHead(a: Item, b: Item) {
    a.name == b.name
    && if a.FileItem? then b.FileItem? && a.length == b.length && a.mtime == b.mtime else b.DirItem?
  }

  lemma KindUnique(a: Item, b: Item, x: seq<byte>, y: seq<byte>)
    requires a.name == b.name && KindBytes(a) + x == KindBytes(b) + y
    ensures SameHead(a, b) && x == y
  {
    assert (KindBytes(a) + x)[0] == KindBytes(a)[0] && (KindBytes(b) + y)[0] == KindBytes(b)[0];
    CutAt(KindBytes(a), KindBytes(b), x, y);
    if a.FileItem? {
      var p, q := LittleEndian(a.length, 8), LittleEndian(b.length, 8);
      var p', q' := LittleEndian(a.mtime, 8), LittleEndian(b.mtime, 8);
      CutAt([MARK_FILE], [MARK_FILE], p + p', q + q');
      CutAt(p, q, p', q');
      Power8();
      LittleEndianUnique(a.length, b.length, 8);
      LittleEndianUnique(a.mtime, b.mtime, 8);
    }
  }

  lemma ItemUnique(a: Item, b: Item, x: seq<byte>, y: seq<byte>)
    requires NameOk(a.name) && NameOk(b.name) && ItemBytes(a) + x == ItemBytes(b) + y
    ensures SameHead(a, b) && x == y
  {
    hide SameHead, KindBytes;
    assert a.name + ([SLASH] + KindBytes(a)) + x == a.name + ([SLASH] + (KindBytes(a) + x));
    assert b.name + ([SLASH] + KindBytes(b)) + y == b.name + ([SLASH] + (KindBytes(b) + y));
    NameUnique(a.name, b.name, KindBytes(a) + x, KindBytes(b) + y);
    KindUnique(a, b, x, y);
  }

  ghost predicate SameHeads(a: seq<Item>, b: seq<Item>) {
    |a| == |b| && forall i | 0 <= i < |a| :: SameHead(a[i], b[i])
  }

  /** A listing ends at the boundary mark: no item starts with a zero byte. */
  lemma {:induction false} ListingUnique(a: seq<Item>, b: seq<Item>, x: seq<byte>, y: seq<byte>)
    requires forall i | i in a || i in b :: NameOk(i.name)
    requires Listing(a) + ([0] + x) == Listing(b) + ([0] + y)
    ensures SameHeads(a, b) && x == y
  {
    ListingEnds(a, x);
    ListingEnds(b, y);
    if a == [] {
      assert [] + ([0] + x) == [0] + x && [] + ([0] + y) == [0] + y;
      CutAt([0], [0], x, y);
    } else {
      Seqs.Regroup(ItemBytes(a[0]), Listing(a[1..]), [0] + x);
      Seqs.Regroup(ItemBytes(b[0]), Listing(b[1..]), [0] + y);
      ItemUnique(a[0], b[0], Listing(a[1..]) + ([0] + x), Listing(b[1..]) + ([0] + y));
      ListingUnique(a[1..], b[1..], x, y);
      SameHeadsCons(a, b);
    }
  }

  lemma SameHeadsCons(a: seq<Item>, b: seq<Item>)
    requires a != [] && b != [] && SameHead(a[0], b[0]) && SameHeads(a[1..], b[1..])
    ensures SameHeads(a, b)
  {
    forall i | 0 <= i < |a|
      ensures SameHead(a[i], b[i])
    {
      if i > 0 {
        assert SameHead(a[1..][i - 1], b[1..][i - 1]);
      }
    }
  }

  lemma ListingEnds(a: seq<Item>, x: seq<byte>)
    requires forall i | i in a :: NameOk(i.name)
    ensures (Listing(a) + ([0] + x))[0] == 0 <==> a == []
  {
    if a != [] {
      assert (Listing(a) + ([0] + x))[0] == a[0].name[0];
      assert a[0].name[0] in a[0].name;
    }
  }

  lemma {:induction false} SerialiseUnique(a: seq<Item>, b: seq<Item>, depth: nat, x: seq<byte>, y: seq<byte>)
    requires Shaped(a, depth) && Shaped(b, depth) && Serialise(a) + x == Serialise(b) + y
    ensures a == b && x == y
    decreases Count(a), 1
  {
    Seqs.Regroup(Listing(a), [0] + Inner(a), x);
    Seqs.Regroup(Listing(b), [0] + Inner(b), y);
    Seqs.Regroup([0], Inner(a), x);
    Seqs.Regroup([0], Inner(b), y);
    ListingUnique(a, b, Inner(a) + x, Inner(b) + y);
    InnerUnique(a, b, depth, x, y);
  }

  function InnerOf(i: Item): seq<byte> {
    if i.DirItem? && i.descended then Serialise(i.inner) else []
  }

  lemma InnerCons(a: seq<Item>, x: seq<byte>)
    requires a != []
    ensures Inner(a) + x == Inner(a[1..]) + (InnerOf(a[0]) + x)
  {
    Seqs.Regroup(Inner(a[1..]), InnerOf(a[0]), x);
  }

  lemma SameSequence(a: seq<Item>, b: seq<Item>)
    requires a != [] && b != [] && a[0] == b[0] && a[1..] == b[1..]
    ensures a == b
  {
    assert a == [a[0]] + a[1..] && b == [b[0]] + b[1..];
  }

  /** Items alike at the head differ at most in what is inside them. */
  lemma AlikeInside(i: Item, j: Item, depth: nat)
    requires ItemShaped(i, depth) && ItemShaped(j, depth) && SameHead(i, j)
    ensures if i.DirItem? && i.descended
            then && j.DirItem? && Shaped(i.inner, depth + 1) && Shaped(j.inner, depth + 1)
                 && InnerOf(i) == Serialise(i.inner) && InnerOf(j) == Serialise(j.inner)
                 && (i.inner == j.inner ==> i == j)
            else InnerOf(i) == [] == InnerOf(j) && i == j
  {
    hide Shaped, Serialise;
  }

  /** The first item's part, once the others' are known equal. */
  lemma {:induction false} FirstUnique(i: Item, j: Item, depth: nat, x: seq<byte>, y: seq<byte>)
    requires ItemShaped(i, depth) && ItemShaped(j, depth) && SameHead(i, j) && InnerOf(i) + x == InnerOf(j) + y
    ensures i == j && x == y
    decreases if i.DirItem? then Count(i.inner) else 0, 2
  {
    hide *;
    AlikeInside(i, j, depth);
    if i.DirItem? && i.descended {
      SerialiseUnique(i.inner, j.inner, depth + 1, x, y);
    } else {
      assert [] + x == x && [] + y == y;
    }
  }

  lemma {:induction false} InnerUnique(a: seq<Item>, b: seq<Item>, depth: nat, x: seq<byte>, y: seq<byte>)
    requires Shaped(a, depth) && Shaped(b, depth) && SameHeads(a, b) && Inner(a) + x == Inner(b) + y
    ensures a == b && x == y
    decreases Count(a), 0
  {
    if a == [] {
      assert [] + x == x && [] + y == y;
    } else {
      InnerCons(a, x);
      InnerCons(b, y);
      assert SameHead(a[0], b[0]) && a[0] in a && b[0] in b;
      assert ItemShaped(a[0], depth) && ItemShaped(b[0], depth);
      assert Shaped(a[1..], depth) && Shaped(b[1..], depth) && SameHeads(a[1..], b[1..]);
      hide SameHeads, SameHead, Inner, InnerOf, Shaped, ItemShaped;
      InnerUnique(a[1..], b[1..], depth, InnerOf(a[0]) + x, InnerOf(b[0]) + y);
      FirstUnique(a[0], b[0], depth, x, y);
      SameSequence(a, b);
    }
  }

  /** Two trees are written down alike exactly when they show the same. */
  lemma EqualStreamsEqualTrees(t: Node, u: Node)
    requires NamesOk(t) && NamesOk(u)
    ensures Serialise(Visible(t, 0)) == Serialise(Visible(u, 0)) <==> Visible(t, 0) == Visible(u, 0)
  {
    VisibleShaped(t, 0);
    VisibleShaped(u, 0);
    if Serialise(Visible(t, 0)) == Serialise(Visible(u, 0)) {
      SerialiseUnique(Visible(t, 0), Visible(u, 0), 0, [], []);
    }
  }

  // ------------------------------------------------------------------
  // What is shown, path by path
  // ------------------------------------------------------------------

  /** What a scan tells apart about one path: a directory, or a file of a length and a modification time. */
  datatype Shape = Directory | Plain(length: u64, mtime: u64)

  /** What an entry is shown as, if at all. */
  function ShapeOf(e: Entry): Option<Shape> {
    match e.node
    case Dir(_, _) => if Skipped(SKIPPED_DIRS, e.name) then None else Some(Directory)
    case File(length, mtime) => if Skipped(SKIPPED_FILES, e.name) then None else Some(Plain(length, mtime))
    case _ => None
  }

  /** Walking down from a directory, by readable directories that are not skipped, to the depth cap. */
  ghost predicate Stands(n: Node, depth: nat, path: seq<Name>, shape: Shape)
    decreases |path|, 1
  {
    path != [] && n.Dir? && n.readable && exists e :: e in n.entries && StandsBy(e, depth, path, shape)
  }

  ghost predicate StandsBy(e: Entry, depth: nat, path: seq<Name>, shape: Shape)
    requires path != []
    decreases |path|, 0
  {
    && e.name == path[0]
    && if |path| == 1 then ShapeOf(e) == Some(shape)
       else ShapeOf(e) == Some(Directory) && depth < VFS_MAX_TREE_DEPTH && Stands(e.node, depth + 1, path[1..], shape)
  }

  /** Two trees have the same standing at every path. */
  ghost predicate SameShown(t: Node, u: Node) {
    forall path, shape :: Stands(t, 0, path, shape) <==> Stands(u, 0, path, shape)
  }

  /** What a file system holds: names it allows, and in each directory no name twice. */
  ghost predicate Proper(n: Node) {
    n.Dir? ==> DistinctNames(n.entries) && forall e | e in n.entries :: NameOk(e.name) && Proper(e.node)
  }

  lemma {:induction false} ProperIsNamed(n: Node)
    requires Proper(n)
    ensures NamesOk(n)
    decreases n
  {
    if n.Dir? {
      forall e | e in n.entries
        ensures NamesOk(e.node)
      {
        ProperIsNamed(e.node);
      }
    }
  }

  // The same, among items.

  ghost predicate Listed(items: seq<Item>, path: seq<Name>, shape: Shape)
    decreases |path|, 1
  {
    path != [] && exists i :: i in items && ListedBy(i, path, shape)
  }

  function ShapeOfItem(i: Item): Shape {
    if i.FileItem? then Plain(i.length, i.mtime) else Directory
  }

  ghost predicate ListedBy(i: Item, path: seq<Name>, shape: Shape)
    requires path != []
    decreases |path|, 0
  {
    && i.name == path[0]
    && if |path| == 1 then ShapeOfItem(i) == shape
       else i.DirItem? && i.descended && Listed(i.inner, path[1..], shape)
  }

  /** The one item an entry is shown as. */
  lemma EntryItem(e: Entry, depth: nat)
    ensures ShapeOf(e).None? ==> VisibleEntry(e, depth) == []
    ensures ShapeOf(e).Some? ==>
              && |VisibleEntry(e, depth)| == 1
              && var i := VisibleEntry(e, depth)[0];
                 && i.name == e.name && ShapeOfItem(i) == ShapeOf(e).value
                 && (i.DirItem? ==> (i.descended <==> depth < VFS_MAX_TREE_DEPTH)
                                    && i.inner == if i.descended then Visible(e.node, depth + 1) else [])
  {
    hide Visible;
  }

  lemma {:induction false} ItemOfEntry(entries: seq<Entry>, depth: nat, i: Item)
    ensures i in VisibleEntries(entries, depth) <==> exists e :: e in entries && i in VisibleEntry(e, depth)
    decreases |entries|
  {
    hide VisibleEntry;
    if entries == [] {
      assert VisibleEntries(entries, depth) == [];
    } else {
      ItemOfEntry(entries[1..], depth, i);
      assert forall e :: e in entries <==> e == entries[0] || e in entries[1..];
      VisibleNext(entries, depth);
    }
  }

  lemma VisibleNext(entries: seq<Entry>, depth: nat)
    requires entries != []
    ensures VisibleEntries(entries, depth) == VisibleEntry(entries[0], depth) + VisibleEntries(entries[1..], depth)
  {
    hide VisibleEntry;
  }

  lemma ItemShown(n: Node, depth: nat, i: Item)
    requires n.Dir? && n.readable
    ensures i in Visible(n, depth) <==> exists e :: e in n.entries && i in VisibleEntry(e, depth)
  {
    hide VisibleEntry, VisibleEntries, SortByName;
    VisibleIsSorted(n, depth);
    SortedMembers(n.entries);
    ItemOfEntry(SortByName(n.entries), depth, i);
  }

  lemma VisibleIsSorted(n: Node, depth: nat)
    requires n.Dir? && n.readable
    ensures Visible(n, depth) == VisibleEntries(SortByName(n.entries), depth)
  {
  }

  lemma SortedMembers(entries: seq<Entry>)
    ensures forall e :: e in SortByName(entries) <==> e in entries
  {
    Orders.SortPermutes(NameBefore, entries);
    Orders.PermutedMembers(SortByName(entries), entries);
  }

  /** An entry and the item it is shown as agree, once what is below them does. */
  lemma EntryAgrees(e: Entry, depth: nat, path: seq<Name>, shape: Shape)
    requires path != []
    requires |path| > 1 ==>
               (Stands(e.node, depth + 1, path[1..], shape) <==> Listed(Visible(e.node, depth + 1), path[1..], shape))
    ensures ShapeOf(e).None? ==> !StandsBy(e, depth, path, shape)
    ensures ShapeOf(e).Some? ==>
              && VisibleEntry(e, depth) != []
              && (StandsBy(e, depth, path, shape) <==> ListedBy(VisibleEntry(e, depth)[0], path, shape))
  {
    hide VisibleEntry, Visible, Stands, Listed, ShapeOf;
    EntryItem(e, depth);
  }

  lemma StandsSomewhere(n: Node, depth: nat, path: seq<Name>, shape: Shape)
    requires path != [] && n.Dir? && n.readable
    requires forall e | e in n.entries && ShapeOf(e).None? :: !StandsBy(e, depth, path, shape)
    requires forall e | e in n.entries && ShapeOf(e).Some? ::
               && VisibleEntry(e, depth) != []
               && (StandsBy(e, depth, path, shape) <==> ListedBy(VisibleEntry(e, depth)[0], path, shape))
    ensures Stands(n, depth, path, shape) <==> Listed(Visible(n, depth), path, shape)
  {
    hide VisibleEntry, Visible, StandsBy, ListedBy, ShapeOf;
    if Stands(n, depth, path, shape) {
      var e :| e in n.entries && StandsBy(e, depth, path, shape);
      var i := VisibleEntry(e, depth)[0];
      ItemShown(n, depth, i);
      assert i in Visible(n, depth);
    }
    if Listed(Visible(n, depth), path, shape) {
      var i :| i in Visible(n, depth) && ListedBy(i, path, shape);
      ItemShown(n, depth, i);
      var e :| e in n.entries && i in VisibleEntry(e, depth);
      EntryItem(e, depth);
    }
  }

  /** The items list exactly what stands in the tree. */
  lemma {:induction false} VisibleListsWhatStands(n: Node, depth: nat, path: seq<Name>, shape: Shape)
    ensures Stands(n, depth, path, shape) <==> Listed(Visible(n, depth), path, shape)
    decreases |path|
  {
    if path != [] && n.Dir? && n.readable {
      hide *;
      forall e | e in n.entries
        ensures ShapeOf(e).None? ==> !StandsBy(e, depth, path, shape)
        ensures ShapeOf(e).Some? ==>
                  && VisibleEntry(e, depth) != []
                  && (StandsBy(e, depth, path, shape) <==> ListedBy(VisibleEntry(e, depth)[0], path, shape))
      {
        if |path| > 1 {
          VisibleListsWhatStands(e.node, depth + 1, path[1..], shape);
        }
        EntryAgrees(e, depth, path, shape);
      }
      StandsSomewhere(n, depth, path, shape);
    } else {
      NothingShown(n, depth);
    }
  }

  lemma NothingShown(n: Node, depth: nat)
    ensures !(n.Dir? && n.readable) ==> Visible(n, depth) == []
  {
  }

  // One list for one standing.

  predicate ItemBefore(i: Item, j: Item) {
    Orders.Lexicographic(ByteBefore, i.name, j.name)
  }

  lemma ItemsAreOrdered()
    ensures Orders.Asymmetric(ItemBefore)
  {
    forall i, j
      ensures !(ItemBefore(i, j) && ItemBefore(j, i))
    {
      Orders.LexicographicTotal(ByteBefore, i.name, j.name);
    }
  }

  /** Names ascend, in the directories listed too. */
  ghost predicate Ordered(items: seq<Item>)
    decreases items
  {
    Orders.Ascending(ItemBefore, items) && forall i | i in items && i.DirItem? :: Ordered(i.inner)
  }

  lemma VisibleAscends(n: Node, depth: nat)
    requires Proper(n)
    ensures Orders.Ascending(ItemBefore, Visible(n, depth))
  {
    hide Visible, VisibleEntries, SortByName, ItemBefore;
    if n.Dir? && n.readable {
      VisibleIsSorted(n, depth);
      DistinctAscend(n.entries);
      EntriesAscend(SortByName(n.entries), depth);
    } else {
      NothingShown(n, depth);
    }
  }

  /** What a directory item lists is what is shown of the entry of that name, or nothing. */
  lemma InnerIsShown(n: Node, depth: nat, i: Item)
    requires Proper(n) && i in Visible(n, depth) && i.DirItem?
    ensures n.Dir?
    ensures i.inner == [] || exists e :: e in n.entries && Proper(e.node) && i.inner == Visible(e.node, depth + 1)
  {
    hide Visible, VisibleEntry, ShapeOf;
    NothingShown(n, depth);
    ItemShown(n, depth, i);
    var e :| e in n.entries && i in VisibleEntry(e, depth);
    EntryItem(e, depth);
  }

  lemma {:induction false} VisibleOrdered(n: Node, depth: nat)
    requires Proper(n)
    ensures Ordered(Visible(n, depth))
    decreases n
  {
    hide Visible, Proper, ItemBefore;
    VisibleAscends(n, depth);
    forall i | i in Visible(n, depth) && i.DirItem?
      ensures Ordered(i.inner)
    {
      InnerIsShown(n, depth, i);
      if i.inner != [] {
        var e :| e in n.entries && Proper(e.node) && i.inner == Visible(e.node, depth + 1);
        VisibleOrdered(e.node, depth + 1);
      }
    }
  }

  lemma FirstIsBefore(entries: seq<Entry>, depth: nat, i: Item)
    requires Orders.Ascending(NameBefore, entries) && entries != [] && ShapeOf(entries[0]).Some?
    requires VisibleEntry(entries[0], depth) != [] && i in VisibleEntries(entries[1..], depth)
    ensures ItemBefore(VisibleEntry(entries[0], depth)[0], i)
  {
    hide VisibleEntry, VisibleEntries, ShapeOf;
    EntryItem(entries[0], depth);
    ItemOfEntry(entries[1..], depth, i);
    var e :| e in entries[1..] && i in VisibleEntry(e, depth);
    EntryItem(e, depth);
    var k :| 0 <= k < |entries| - 1 && entries[1..][k] == e;
    assert NameBefore(entries[0], entries[k + 1]);
  }

  lemma RestAscends(entries: seq<Entry>)
    requires Orders.Ascending(NameBefore, entries) && entries != []
    ensures Orders.Ascending(NameBefore, entries[1..])
  {
    hide NameBefore;
    forall i, j | 0 <= i < j < |entries| - 1
      ensures NameBefore(entries[1..][i], entries[1..][j])
    {
      assert NameBefore(entries[i + 1], entries[j + 1]);
    }
  }

  lemma {:induction false} EntriesAscend(entries: seq<Entry>, depth: nat)
    requires Orders.Ascending(NameBefore, entries)
    ensures Orders.Ascending(ItemBefore, VisibleEntries(entries, depth))
    decreases |entries|
  {
    if entries == [] {
      NoEntries(depth);
    } else {
      hide *;
      var rest := VisibleEntries(entries[1..], depth);
      VisibleNext(entries, depth);
      EntryItem(entries[0], depth);
      RestAscends(entries);
      EntriesAscend(entries[1..], depth);
      if ShapeOf(entries[0]).None? {
        assert [] + rest == rest;
      } else {
        var first := VisibleEntry(entries[0], depth)[0];
        assert VisibleEntry(entries[0], depth) == [first];
        forall i | i in rest
          ensures ItemBefore(first, i)
        {
          FirstIsBefore(entries, depth, i);
        }
        Orders.Cons(ItemBefore, first, rest);
      }
    }
  }

  lemma NoEntries(depth: nat)
    ensures VisibleEntries([], depth) == []
  {
  }

  lemma OneOfAName(items: seq<Item>, i: Item, j: Item)
    requires Orders.Ascending(ItemBefore, items) && i in items && j in items && i.name == j.name
    ensures i == j
  {
    Orders.LexicographicTotal(ByteBefore, i.name, i.name);
    assert !ItemBefore(i, j) && !ItemBefore(j, i);
    hide ItemBefore;
  }

  ghost predicate SameListed(a: seq<Item>, b: seq<Item>) {
    forall path, shape :: Listed(a, path, shape) <==> Listed(b, path, shape)
  }

  /** What is listed below an item is what its own list says. */
  lemma BelowItem(items: seq<Item>, i: Item, path: seq<Name>, shape: Shape)
    requires Orders.Ascending(ItemBefore, items) && i in items && i.DirItem? && i.descended && path != []
    ensures Listed(items, [i.name] + path, shape) <==> Listed(i.inner, path, shape)
  {
    var long := [i.name] + path;
    assert long[0] == i.name && long[1..] == path && |long| > 1;
    assert ListedBy(i, long, shape) <==> Listed(i.inner, path, shape);
    if Listed(items, long, shape) {
      var j :| j in items && ListedBy(j, long, shape);
      OneOfAName(items, i, j);
    }
  }

  /** An item of one list is in the other, if the two list the same. */
  lemma {:induction false} ItemInBoth(a: seq<Item>, b: seq<Item>, depth: nat, i: Item)
    requires Ordered(a) && Ordered(b) && Shaped(a, depth) && Shaped(b, depth) && SameListed(a, b) && i in a
    ensures i in b
    decreases Count(a) + Count(b), 0
  {
    assert ListedBy(i, [i.name], ShapeOfItem(i));
    assert Listed(a, [i.name], ShapeOfItem(i));
    assert Listed(b, [i.name], ShapeOfItem(i));
    var j :| j in b && ListedBy(j, [i.name], ShapeOfItem(i));
    assert ItemShaped(i, depth) && ItemShaped(j, depth);
    if i.DirItem? && i.descended {
      forall path, shape
        ensures Listed(i.inner, path, shape) <==> Listed(j.inner, path, shape)
      {
        if path != [] {
          BelowItem(a, i, path, shape);
          BelowItem(b, j, path, shape);
        }
      }
      InnerCounts(a, i);
      InnerCounts(b, j);
      SameListsAreEqual(i.inner, j.inner, depth + 1);
    }
  }

  lemma {:induction false} InnerCounts(items: seq<Item>, i: Item)
    requires i in items && i.DirItem?
    ensures Count(i.inner) < Count(items)
  {
    if items[0] != i {
      InnerCounts(items[1..], i);
    }
  }

  lemma {:induction false} SameListsAreEqual(a: seq<Item>, b: seq<Item>, depth: nat)
    requires Ordered(a) && Ordered(b) && Shaped(a, depth) && Shaped(b, depth) && SameListed(a, b)
    ensures a == b
    decreases Count(a) + Count(b), 1
  {
    ItemsAreOrdered();
    forall i
      ensures i in a <==> i in b
    {
      if i in a {
        ItemInBoth(a, b, depth, i);
      }
      if i in b {
        ItemInBoth(b, a, depth, i);
      }
    }
    Orders.AscendingIsUnique(ItemBefore, a, b);
  }

  /** What a scan shows of two trees is the same exactly when they have the same standing at every path. */
  lemma SameShownIsVisible(t: Node, u: Node)
    requires Proper(t) && Proper(u)
    ensures SameShown(t, u) <==> Visible(t, 0) == Visible(u, 0)
  {
    hide Visible, Stands, Listed, Shaped, Ordered;
    forall path, shape
      ensures Stands(t, 0, path, shape) <==> Listed(Visible(t, 0), path, shape)
      ensures Stands(u, 0, path, shape) <==> Listed(Visible(u, 0), path, shape)
    {
      VisibleListsWhatStands(t, 0, path, shape);
      VisibleListsWhatStands(u, 0, path, shape);
    }
    if SameShown(t, u) {
      ProperIsNamed(t);
      ProperIsNamed(u);
      VisibleShaped(t, 0);
      VisibleShaped(u, 0);
      VisibleOrdered(t, 0);
      VisibleOrdered(u, 0);
      SameListsAreEqual(Visible(t, 0), Visible(u, 0), 0);
    }
  }

  // ------------------------------------------------------------------
  // The scan
  // ------------------------------------------------------------------

  /** A directory waiting on the stack. */
  datatype Due = Due(node: Node, depth: nat)

  function StackStream(stack: seq<Due>): seq<byte> {
    if stack == [] then []
    else
      var top := stack[|stack| - 1];
      Serialise(Visible(top.node, top.depth)) + StackStream(stack[..|stack| - 1])
  }

  function StackCount(stack: seq<Due>): nat {
    if stack == [] then 0
    else
      var top := stack[|stack| - 1];
      Count(Visible(top.node, top.depth)) + StackCount(stack[..|stack| - 1])
  }

  function StackSize(stack: seq<Due>): nat {
    if stack == [] then 0 else NodeSize(stack[|stack| - 1].node) + StackSize(stack[..|stack| - 1])
  }

  lemma Push(stack: seq<Due>, d: Due)
    ensures StackStream(stack + [d]) == Serialise(Visible(d.node, d.depth)) + StackStream(stack)
    ensures StackCount(stack + [d]) == Count(Visible(d.node, d.depth)) + StackCount(stack)
    ensures StackSize(stack + [d]) == NodeSize(d.node) + StackSize(stack)
  {
    assert (stack + [d])[..|stack|] == stack;
  }

  lemma NextEntry(entries: seq<Entry>, i: nat, depth: nat)
    requires i < |entries|
    ensures VisibleEntries(entries[i..], depth)
         == VisibleEntry(entries[i], depth) + VisibleEntries(entries[i + 1..], depth)
    ensures EntriesSize(entries[i..]) == NodeSize(entries[i].node) + EntriesSize(entries[i + 1..])
  {
    assert entries[i..][1..] == entries[i + 1..];
  }

  /** The stack with what an item adds to it. */
  function Pushed(stack: seq<Due>, item: Item, node: Node, depth: nat): seq<Due> {
    if item.DirItem? && item.descended then stack + [Due(node, depth + 1)] else stack
  }

  /** What is fed, stacked and counted when one more item is taken off the listing. */
  lemma NextItem(item: Item, rest: seq<Item>, stack: seq<Due>, node: Node, depth: nat)
    requires item.DirItem? ==> item.inner == if item.descended then Visible(node, depth + 1) else []
    ensures Listing([item] + rest) == ItemBytes(item) + Listing(rest)
    ensures Inner([item] + rest) + StackStream(stack) == Inner(rest) + StackStream(Pushed(stack, item, node, depth))
    ensures Count([item] + rest) + StackCount(stack) == 1 + Count(rest) + StackCount(Pushed(stack, item, node, depth))
    ensures StackSize(Pushed(stack, item, node, depth)) <= StackSize(stack) + NodeSize(node)
  {
    var items := [item] + rest;
    assert items[0] == item && items[1..] == rest;
    Push(stack, Due(node, depth + 1));
    Seqs.Regroup(Inner(rest), InnerOf(item), StackStream(stack));
    assert [] + StackStream(stack) == StackStream(stack);
    assert Inner(items) == Inner(rest) + InnerOf(item);
    hide Inner, Listing, StackStream, Visible, StackCount, StackSize;
  }

  /** Feed one readable directory's entries, and stack its subdirectories. */
  method ScanEntries(entries: seq<Entry>, depth: nat, due: seq<Due>, taken: nat, before: seq<byte>)
    returns (stack: seq<Due>, count: nat, fed: seq<byte>)
    requires taken <= VFS_MAX_TREE_ENTRIES
    ensures count <= VFS_MAX_TREE_ENTRIES
    ensures StackSize(stack) <= StackSize(due) + EntriesSize(entries)
    ensures var items := VisibleEntries(entries, depth);
            taken + Count(items) + StackCount(due) < VFS_MAX_TREE_ENTRIES ==>
              && fed == before + Listing(items)
              && StackStream(stack) == Inner(items) + StackStream(due)
              && count + StackCount(stack) == taken + Count(items) + StackCount(due)
  {
    stack, count, fed := due, taken, before;
    ghost var items := VisibleEntries(entries, depth);
    ghost var few := taken + Count(items) + StackCount(due) < VFS_MAX_TREE_ENTRIES;
    assert entries[0..] == entries;
    hide Inner, Listing, StackStream, StackCount, StackSize, Count, VisibleEntries, EntriesSize;
    for i := 0 to |entries|
      invariant count <= VFS_MAX_TREE_ENTRIES
      invariant StackSize(stack) + EntriesSize(entries[i..]) <= StackSize(due) + EntriesSize(entries)
      invariant few ==> fed + Listing(VisibleEntries(entries[i..], depth)) == before + Listing(items)
      invariant few ==> Inner(VisibleEntries(entries[i..], depth)) + StackStream(stack)
                        == Inner(items) + StackStream(due)
      invariant few ==> count + Count(VisibleEntries(entries[i..], depth)) + StackCount(stack)
                        == taken + Count(items) + StackCount(due)
    {
      if count >= VFS_MAX_TREE_ENTRIES {
        break;
      }
      var e := entries[i];
      NextEntry(entries, i, depth);
      ghost var left := VisibleEntries(entries[i + 1..], depth);
      assert [] + left == left;
      if e.node.Dir? {
        if Skipped(SKIPPED_DIRS, e.name) {
          continue;
        }
        var descends := depth < VFS_MAX_TREE_DEPTH;
        ghost var item := DirItem(e.name, descends, if descends then Visible(e.node, depth + 1) else []);
        NextItem(item, left, stack, e.node, depth);
        Seqs.Regroup(fed, ItemBytes(item), Listing(left));
        count := count + 1;
        fed := fed + (e.name + ([SLASH] + [MARK_DIR]));
        if descends {
          stack := stack + [Due(e.node, depth + 1)];
        }
      } else if e.node.File? {
        if Skipped(SKIPPED_FILES, e.name) {
          continue;
        }
        ghost var item := FileItem(e.name, e.node.length, e.node.mtime);
        NextItem(item, left, stack, e.node, depth);
        Seqs.Regroup(fed, ItemBytes(item), Listing(left));
        count := count + 1;
        fed := fed + (e.name + ([SLASH] + ([MARK_FILE]
                      + (LittleEndian(e.node.length, 8) + LittleEndian(e.node.mtime, 8)))));
      }
    }
    if few {
      ScanEnds(entries, depth, stack, fed);
    }
  }

  lemma ScanEnds(entries: seq<Entry>, depth: nat, stack: seq<Due>, fed: seq<byte>)
    ensures VisibleEntries(entries[|entries|..], depth) == []
    ensures fed + Listing([]) == fed && Inner([]) + StackStream(stack) == StackStream(stack) && Count([]) == 0
  {
  }

  /** `scan_digest`, up to the hashing: the bytes fed to the hasher, and how many entries were taken. */
  method ScanStream(root: Node) returns (fed: seq<byte>, count: nat)
    ensures count <= VFS_MAX_TREE_ENTRIES
    ensures Count(Visible(root, 0)) < VFS_MAX_TREE_ENTRIES ==>
              fed == Serialise(Visible(root, 0)) && count == Count(Visible(root, 0))
  {
    fed, count := [], 0;
    var stack := [Due(root, 0)];
    ghost var few := Count(Visible(root, 0)) < VFS_MAX_TREE_ENTRIES;
    StackOfOne(Due(root, 0));
    hide Serialise, Count, Visible, StackStream, StackCount, StackSize, NodeSize;
    while stack != []
      invariant count <= VFS_MAX_TREE_ENTRIES
      invariant few ==> fed + StackStream(stack) == Serialise(Visible(root, 0))
      invariant few ==> count + StackCount(stack) == Count(Visible(root, 0))
      decreases StackSize(stack)
    {
      if count >= VFS_MAX_TREE_ENTRIES {
        break;
      }
      var top, rest := stack[|stack| - 1], stack[..|stack| - 1];
      Pop(stack, fed);
      if !(top.node.Dir? && top.node.readable) {
        ClosedDirectory(top, fed, rest);
        fed := fed + [0];
        stack := rest;
        continue;
      }
      var sorted := SortByName(top.node.entries);
      OpenDirectory(top, fed, rest);
      ghost var items := VisibleEntries(sorted, top.depth);
      var listed;
      stack, count, listed := ScanEntries(sorted, top.depth, rest, count, fed);
      ghost var before := fed;
      fed := listed + [0];
      if few {
        Seqs.Regroup(listed, [0], StackStream(stack));
        assert fed + StackStream(stack) == (before + Listing(items)) + ([0] + (Inner(items) + StackStream(rest)));
      }
    }
    if few {
      assert stack == [];
      StackEnds(fed);
    }
  }

  lemma StackOfOne(d: Due)
    ensures [] + StackStream([d]) == Serialise(Visible(d.node, d.depth))
    ensures StackCount([d]) == Count(Visible(d.node, d.depth))
  {
    assert [d][..0] == [];
    assert StackStream([d]) == Serialise(Visible(d.node, d.depth)) + [];
  }

  lemma StackEnds(fed: seq<byte>)
    ensures fed + StackStream([]) == fed && StackCount([]) == 0
  {
  }

  lemma Pop(stack: seq<Due>, fed: seq<byte>)
    requires stack != []
    ensures var (top, rest) := (stack[|stack| - 1], stack[..|stack| - 1]);
            && StackStream(stack) == Serialise(Visible(top.node, top.depth)) + StackStream(rest)
            && StackCount(stack) == Count(Visible(top.node, top.depth)) + StackCount(rest)
            && StackSize(stack) == NodeSize(top.node) + StackSize(rest)
            && NodeSize(top.node) > 0
  {
    hide Serialise, Visible, Count;
  }

  lemma ClosedDirectory(top: Due, fed: seq<byte>, rest: seq<Due>)
    requires !(top.node.Dir? && top.node.readable)
    ensures fed + [0] + StackStream(rest) == fed + (Serialise(Visible(top.node, top.depth)) + StackStream(rest))
    ensures Count(Visible(top.node, top.depth)) == 0
  {
    assert Serialise([]) == [] + ([0] + []);
    assert Serialise([]) == [0];
    Seqs.Regroup(fed, [0], StackStream(rest));
  }

  lemma OpenDirectory(top: Due, fed: seq<byte>, rest: seq<Due>)
    requires top.node.Dir? && top.node.readable
    ensures var sorted := SortByName(top.node.entries);
            var items := VisibleEntries(sorted, top.depth);
            && Visible(top.node, top.depth) == items
            && EntriesSize(sorted) < NodeSize(top.node)
            && (fed + Listing(items)) + ([0] + (Inner(items) + StackStream(rest)))
               == fed + (Serialise(items) + StackStream(rest))
  {
    SortKeepsSize(top.node.entries);
    var items := VisibleEntries(SortByName(top.node.entries), top.depth);
    var l, n, s := Listing(items), Inner(items), StackStream(rest);
    Seqs.Regroup([0], n, s);
    Seqs.Regroup(l, [0] + n, s);
    Seqs.Regroup(fed, l, [0] + (n + s));
  }

  // ------------------------------------------------------------------
  // The watcher
  // ------------------------------------------------------------------

  /** A tree that a scan takes in whole. */
  ghost predicate Small(n: Node) {
    Proper(n) && Count(Visible(n, 0)) < VFS_MAX_TREE_ENTRIES
  }

  class Watcher {
    const blake: Blake
    var previous: Option<Digest>
    /** The tree the remembered digest is of. */
    ghost var seen: Node

    ghost predicate Valid()
      reads this
    {
      previous.Some? && Small(seen) ==> previous.value == blake(Serialise(Visible(seen, 0)))
    }

    constructor (blake: Blake)
      ensures Valid() && previous.None? && this.blake == blake
    {
      this.blake := blake;
      previous, seen := None, Gone;
    }

    /**
     * One tick. With nobody listening nothing is scanned and the digest is forgotten, so the next scan only
     * primes. Between two trees within the entry cap a change is announced only if they show something else,
     * and always then unless their streams collide.
     */
    method Tick(receivers: nat, scanned: bool, root: Node) returns (changed: bool)
      requires Valid()
      modifies this
      ensures Valid()
      ensures previous.Some? <==> receivers > 0 && (scanned || old(previous).Some?)
      ensures receivers > 0 && scanned ==> seen == root
      ensures receivers > 0 && !scanned ==> previous == old(previous) && seen == old(seen)
      ensures changed ==> receivers > 0 && scanned && old(previous).Some?
      ensures receivers > 0 && scanned && old(previous).Some? && Small(root) && Small(old(seen)) ==>
                && (changed ==> !SameShown(root, old(seen)))
                && (!SameShown(root, old(seen)) ==>
                      changed || Collision(blake, Visible(root, 0), Visible(old(seen), 0)))
    {
      changed := false;
      if receivers == 0 {
        previous := None;
        return;
      }
      if !scanned {
        return;
      }
      hide Serialise, Visible, Count, NamesOk, Small, SameShown;
      if Small(root) && Small(seen) {
        StreamsTellTrees(root, seen);
      }
      SmallIsCounted(root);
      var fed, count := ScanStream(root);
      var digest := blake(fed);
      changed := previous.Some? && previous.value != digest;
      previous := Some(digest);
      seen := root;
    }
  }

  /** The streams of two trees are the same exactly when the trees have the same standing at every path. */
  lemma StreamsTellTrees(t: Node, u: Node)
    requires Small(t) && Small(u)
    ensures Serialise(Visible(t, 0)) == Serialise(Visible(u, 0)) <==> SameShown(t, u)
  {
    hide Serialise, Visible, Count, NamesOk, SameShown, Proper;
    SmallIsProper(t);
    SmallIsProper(u);
    ProperIsNamed(t);
    ProperIsNamed(u);
    SameShownIsVisible(t, u);
    EqualStreamsEqualTrees(t, u);
  }

  lemma SmallIsProper(n: Node)
    requires Small(n)
    ensures Proper(n)
  {
  }

  /** So an edit in place that keeps the length shows, for instance. */
  lemma TimesAreShown(name: Name, length: u64, before: u64, after: u64)
    requires !Skipped(SKIPPED_FILES, name) && before != after
    ensures !SameShown(Dir(true, [Entry(name, File(length, before))]), Dir(true, [Entry(name, File(length, after))]))
  {
    var e, f := Entry(name, File(length, before)), Entry(name, File(length, after));
    var t, u := Dir(true, [e]), Dir(true, [f]);
    assert StandsBy(e, 0, [name], Plain(length, before)) && e in t.entries;
    assert Stands(t, 0, [name], Plain(length, before));
    assert !Stands(u, 0, [name], Plain(length, before));
  }

  lemma SmallIsCounted(n: Node)
    ensures Small(n) ==> Count(Visible(n, 0)) < VFS_MAX_TREE_ENTRIES
  {
  }

  /** Two different streams with one hash. */
  ghost predicate Collision(blake: Blake, a: seq<Item>, b: seq<Item>) {
    Serialise(a) != Serialise(b) && blake(Serialise(a)) == blake(Serialise(b))
  }
}
