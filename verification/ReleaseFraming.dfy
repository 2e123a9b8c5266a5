/** The release digest (release_integrity.py). The hashed stream frames every path and payload
    with its length; it determines the listed files, and it depends only on which files the tree
    holds. The hash itself is not modelled: the stream is what it is taken of. */
module ReleaseFraming {
  import opened Wrappers
  import opened Octets

  const PATH_LIMIT: nat := 0x1_0000_0000
  const PAYLOAD_LIMIT: nat := 0x1_0000_0000_0000_0000

  // ---- Framing ---------------------------------------------------------------------------------

  datatype Item = Item(path: Bytes, payload: Bytes)

  predicate Fits(item: Item) { |item.path| < PATH_LIMIT && |item.payload| < PAYLOAD_LIMIT }

  function Frame(item: Item): Bytes {
    BigEndian(|item.path|, 4) + item.path + BigEndian(|item.payload|, 8) + item.payload
  }

  /** The bytes fed to the hash. */
  function Stream(items: seq<Item>): Bytes {
    if items == [] then [] else Stream(items[..|items| - 1]) + Frame(items[|items| - 1])
  }

  /** A reader of one frame: the item and the bytes after it. */
  function ReadFrame(stream: Bytes): Option<(Item, Bytes)> {
    if |stream| < 4 then None
    else
      var pathLength := ReadBigEndian(stream[..4]);
      if |stream| < 4 + pathLength + 8 then None
      else
        var payloadStart := 4 + pathLength + 8;
        var payloadLength := ReadBigEndian(stream[4 + pathLength..payloadStart]);
        if |stream| < payloadStart + payloadLength then None
        else Some((Item(stream[4..4 + pathLength], stream[payloadStart..payloadStart + payloadLength]),
                   stream[payloadStart + payloadLength..]))
  }

  lemma {:induction false} FrameReads(item: Item, rest: Bytes)
    requires Fits(item)
    ensures ReadFrame(Frame(item) + rest) == Some((item, rest))
  {
    hide ReadBigEndian, BigEndian, Pow2;
    WordPowers();
    BigEndianReads(|item.path|, 4);
    BigEndianReads(|item.payload|, 8);
    var stream := Frame(item) + rest;
    var n := |item.path|;
    assert stream[..4] == BigEndian(n, 4);
    assert stream[4..4 + n] == item.path;
    assert stream[4 + n..4 + n + 8] == BigEndian(|item.payload|, 8);
    assert stream[4 + n + 8..4 + n + 8 + |item.payload|] == item.payload;
    assert stream[4 + n + 8 + |item.payload|..] == rest;
  }

  lemma {:induction false} StreamFirst(items: seq<Item>)
    requires items != []
    ensures Stream(items) == Frame(items[0]) + Stream(items[1..])
  {
    var last := |items| - 1;
    hide Frame;
    if last == 0 {
      assert Stream(items[..0]) == [] && Stream(items[1..]) == [];
    } else {
      StreamFirst(items[..last]);
      assert items[..last][1..] == items[1..][..last - 1];
    }
  }

  lemma {:induction false} StreamEmpty(items: seq<Item>)
    ensures Stream(items) == [] <==> items == []
  {
    if items != [] { assert |Frame(items[|items| - 1])| >= 12; }
  }

  lemma {:induction false} SameFirst(item: Item, rest: Bytes, other: Item, otherRest: Bytes)
    requires Fits(item) && Fits(other) && Frame(item) + rest == Frame(other) + otherRest
    ensures item == other && rest == otherRest
  {
    hide *;
    FrameReads(item, rest);
    FrameReads(other, otherRest);
  }

  /** Equal streams come from equal lists of paths and payloads. */
  lemma {:induction false} StreamInjective(items: seq<Item>, others: seq<Item>)
    requires forall i :: 0 <= i < |items| ==> Fits(items[i])
    requires forall i :: 0 <= i < |others| ==> Fits(others[i])
    requires Stream(items) == Stream(others)
    ensures items == others
    decreases |items|
  {
    hide *;
    StreamEmpty(items);
    StreamEmpty(others);
    if items != [] && others != [] {
      StreamFirst(items);
      StreamFirst(others);
      SameFirst(items[0], Stream(items[1..]), others[0], Stream(others[1..]));
      StreamInjective(items[1..], others[1..]);
      assert items == [items[0]] + items[1..] && others == [others[0]] + others[1..];
    }
  }

  // ---- The listed files -------------------------------------------------------------------------

  datatype Kind = Regular(payload: Bytes) | Link | Folder

  /** A directory entry: its path's parts and its kind. */
  datatype Entry = Entry(parts: seq<Bytes>, kind: Kind)

  const SLASH: byte := 0x2f
  const DOT: byte := 0x2e

  /** "__pycache__" */
  const PYCACHE: Bytes := [0x5f, 0x5f, 0x70, 0x79, 0x63, 0x61, 0x63, 0x68, 0x65, 0x5f, 0x5f]

  /** ".pyc" and ".pyo" */
  const PYC: Bytes := [DOT, 0x70, 0x79, 0x63]
  const PYO: Bytes := [DOT, 0x70, 0x79, 0x6f]

  /** The path's text, parts joined by slashes. */
  function PathOf(parts: seq<Bytes>): Bytes {
    if parts == [] then []
    else if |parts| == 1 then parts[0]
    else PathOf(parts[..|parts| - 1]) + [SLASH] + parts[|parts| - 1]
  }

  predicate EndsWith(name: Bytes, suffix: Bytes) { |suffix| < |name| && name[|name| - |suffix|..] == suffix }

  /** Files derived at run time, which the digest does not cover. */
  predicate Derived(entry: Entry) {
    || PYCACHE in entry.parts
    || (entry.parts != [] && (EndsWith(entry.parts[|entry.parts| - 1], PYC)
                              || EndsWith(entry.parts[|entry.parts| - 1], PYO)))
  }

  /** The order of Python byte strings. */
  predicate Before(a: Bytes, b: Bytes) {
    b != [] && (a == [] || a[0] < b[0] || (a[0] == b[0] && Before(a[1..], b[1..])))
  }

  lemma {:induction false} BeforeTotal(a: Bytes, b: Bytes)
    ensures a == b || Before(a, b) || Before(b, a)
    ensures !(Before(a, b) && Before(b, a)) && !Before(a, a)
  {
    if a != [] && b != [] && a[0] == b[0] {
      BeforeTotal(a[1..], b[1..]);
      assert a == [a[0]] + a[1..] && b == [b[0]] + b[1..];
    }
    if a != [] { BeforeIrreflexive(a); }
  }

  lemma {:induction false} BeforeIrreflexive(a: Bytes)
    ensures !Before(a, a)
  {
    if a != [] { BeforeIrreflexive(a[1..]); }
  }

  lemma {:induction false} BeforeTransitive(a: Bytes, b: Bytes, c: Bytes)
    requires Before(a, b) && Before(b, c)
    ensures Before(a, c)
  {
    if a != [] && a[0] == b[0] && b[0] == c[0] { BeforeTransitive(a[1..], b[1..], c[1..]); }
  }

  /** The regular, underived files; None when an underived entry is a link. */
  function Listed(entries: seq<Entry>): Option<seq<Item>> {
    if entries == [] then Some([])
    else
      var last := entries[|entries| - 1];
      match Listed(entries[..|entries| - 1])
      case None => None
      case Some(items) =>
        if Derived(last) then Some(items)
        else match last.kind
          case Link => None
          case Folder => Some(items)
          case Regular(payload) => Some(items + [Item(PathOf(last.parts), payload)])
  }

  /** Strictly increasing paths. */
  predicate Sorted(items: seq<Item>) { forall i, j :: 0 <= i < j < |items| ==> Before(items[i].path, items[j].path) }

  function Insert(items: seq<Item>, item: Item): seq<Item> {
    if items == [] then [item]
    else if Before(item.path, items[|items| - 1].path) then Insert(items[..|items| - 1], item) + [items[|items| - 1]]
    else items + [item]
  }

  /** The listed files by path. */
  function SortByPath(items: seq<Item>): seq<Item> {
    if items == [] then [] else Insert(SortByPath(items[..|items| - 1]), items[|items| - 1])
  }

  /** What release_tree_digest feeds the hash; None stands for the digest of an unusable tree. */
  function TreeStream(entries: seq<Entry>): Option<Bytes> {
    match Listed(entries)
    case None => None
    case Some(items) => Some(Stream(SortByPath(items)))
  }

  lemma {:induction false} LinkStops(entries: seq<Entry>, i: nat)
    requires i <= |entries| && Listed(entries[..i]).None?
    ensures Listed(entries).None?
    decreases |entries|
  {
    if i == |entries| {
      assert entries[..i] == entries;
    } else {
      assert entries[..|entries| - 1][..i] == entries[..i];
      LinkStops(entries[..|entries| - 1], i);
    }
  }

  /** release_tree_files and release_tree_digest: collect, sort, and feed frame by frame. */
  method ReleaseTreeStream(entries: seq<Entry>) returns (stream: Option<Bytes>)
    ensures stream == TreeStream(entries)
  {
    var files: seq<Item> := [];
    for i := 0 to |entries|
      invariant Listed(entries[..i]) == Some(files)
    {
      hide Derived, PathOf;
      assert entries[..i + 1][..i] == entries[..i];
      if Derived(entries[i]) { continue; }
      if entries[i].kind.Link? {
        LinkStops(entries, i + 1);
        return None;
      }
      if entries[i].kind.Regular? { files := files + [Item(PathOf(entries[i].parts), entries[i].kind.payload)]; }
    }
    assert entries[..|entries|] == entries;
    var sorted := SortByPath(files);
    var fed: Bytes := [];
    for i := 0 to |sorted|
      invariant fed == Stream(sorted[..i])
    {
      assert sorted[..i + 1][..i] == sorted[..i];
      fed := fed + Frame(sorted[i]);
    }
    assert sorted[..|sorted|] == sorted;
    stream := Some(fed);
  }

  // ---- A tree, not an enumeration ------------------------------------------------------------------

  /** The entries of a tree: no part is empty or holds a slash, and no path occurs twice. */
  ghost predicate Tree(entries: seq<Entry>) {
    && (forall i :: 0 <= i < |entries| ==> entries[i].parts != [] && PlainParts(entries[i].parts))
    && (forall i, j :: 0 <= i < j < |entries| ==> entries[i].parts != entries[j].parts)
  }

  predicate PlainParts(parts: seq<Bytes>) { forall k :: 0 <= k < |parts| ==> parts[k] != [] && SLASH !in parts[k] }

  lemma {:induction false} LastSlash(head: Bytes, tail: Bytes, otherHead: Bytes, otherTail: Bytes)
    requires head + [SLASH] + tail == otherHead + [SLASH] + otherTail
    requires SLASH !in tail && SLASH !in otherTail
    ensures head == otherHead && tail == otherTail
  {
    var text, other := head + [SLASH] + tail, otherHead + [SLASH] + otherTail;
    assert text[|head|] == SLASH && other[|otherHead|] == SLASH;
    assert forall k :: |head| < k < |text| ==> text[k] == tail[k - |head| - 1];
    assert forall k :: |otherHead| < k < |text| ==> other[k] == otherTail[k - |otherHead| - 1];
    assert |head| == |otherHead|;
    assert head == text[..|head|] && otherHead == other[..|head|];
    assert tail == text[|head| + 1..] && otherTail == other[|head| + 1..];
  }

  lemma {:induction false} SlashInPath(parts: seq<Bytes>)
    requires |parts| > 1
    ensures SLASH in PathOf(parts)
  {
    var head := PathOf(parts[..|parts| - 1]);
    assert PathOf(parts)[|head|] == SLASH;
  }

  /** Paths of plain parts are told apart by their text. */
  lemma {:induction false} PathInjective(parts: seq<Bytes>, others: seq<Bytes>)
    requires parts != [] && others != [] && PlainParts(parts) && PlainParts(others) && PathOf(parts) == PathOf(others)
    ensures parts == others
    decreases |parts|
  {
    if |parts| == 1 || |others| == 1 {
      if |parts| > 1 { SlashInPath(parts); }
      if |others| > 1 { SlashInPath(others); }
    } else {
      var n, m := |parts| - 1, |others| - 1;
      LastSlash(PathOf(parts[..n]), parts[n], PathOf(others[..m]), others[m]);
      PathInjective(parts[..n], others[..m]);
      assert parts == parts[..n] + [parts[n]] && others == others[..m] + [others[m]];
    }
  }

  /** An entry contributes an item. */
  predicate Contributes(entry: Entry, item: Item) {
    !Derived(entry) && entry.kind.Regular? && item == Item(PathOf(entry.parts), entry.kind.payload)
  }

  /** Some entry contributes the item. */
  predicate Holds(entries: seq<Entry>, item: Item) { exists i :: 0 <= i < |entries| && Contributes(entries[i], item) }

  predicate Refused(entry: Entry) { !Derived(entry) && entry.kind.Link? }

  lemma {:induction false} ListedMembers(entries: seq<Entry>)
    ensures Listed(entries).None? <==> exists i :: 0 <= i < |entries| && Refused(entries[i])
    ensures Listed(entries).Some? ==>
      forall item :: item in Listed(entries).value <==> Holds(entries, item)
  {
    hide Derived, PathOf;
    if entries != [] {
      var init := entries[..|entries| - 1];
      ListedMembers(init);
      assert forall i :: 0 <= i < |init| ==> init[i] == entries[i];
      if Listed(entries).Some? {
        forall item ensures item in Listed(entries).value <==> Holds(entries, item) {
          MemberStep(entries, item);
        }
      } else if Listed(init).None? {
        var i :| 0 <= i < |init| && Refused(init[i]);
        assert Refused(entries[i]);
      }
    }
  }

  lemma {:induction false} MemberStep(entries: seq<Entry>, item: Item)
    requires entries != [] && Listed(entries).Some?
    requires item in Listed(entries[..|entries| - 1]).value <==> Holds(entries[..|entries| - 1], item)
    ensures item in Listed(entries).value <==> Holds(entries, item)
  {
    hide Derived, PathOf;
    var init := entries[..|entries| - 1];
    if item in Listed(init).value {
      var i :| 0 <= i < |entries| - 1 && Contributes(init[i], item);
      assert Contributes(entries[i], item);
    }
    if i :| 0 <= i < |entries| && Contributes(entries[i], item) {
      if i < |entries| - 1 { assert Contributes(init[i], item); }
    }
  }

  predicate DistinctPaths(items: seq<Item>) { forall i, j :: 0 <= i < j < |items| ==> items[i].path != items[j].path }

  lemma {:induction false} ListedDistinct(entries: seq<Entry>)
    requires Tree(entries) && Listed(entries).Some?
    ensures DistinctPaths(Listed(entries).value)
  {
    hide Derived, PathOf;
    if entries != [] {
      var last := |entries| - 1;
      var init := entries[..last];
      ListedDistinct(init);
      ListedMembers(init);
      var items := Listed(init).value;
      forall k | 0 <= k < |items| ensures items[k].path != PathOf(entries[last].parts) {
        assert items[k] in items;
        var i :| 0 <= i < |init| && Contributes(init[i], items[k]);
        assert init[i] == entries[i];
        if items[k].path == PathOf(entries[last].parts) { PathInjective(entries[i].parts, entries[last].parts); }
      }
    }
  }

  lemma {:induction false} InsertSorts(items: seq<Item>, item: Item)
    requires Sorted(items) && forall k :: 0 <= k < |items| ==> items[k].path != item.path
    ensures Sorted(Insert(items, item))
    ensures forall x :: x in Insert(items, item) <==> x in items || x == item
  {
    if items != [] {
      var last := |items| - 1;
      BeforeTotal(item.path, items[last].path);
      assert items == items[..last] + [items[last]];
      if Before(item.path, items[last].path) {
        InsertSorts(items[..last], item);
        var front := Insert(items[..last], item);
        forall k | 0 <= k < |front| ensures Before(front[k].path, items[last].path) {
          assert front[k] in front;
        }
      } else {
        forall k | 0 <= k < |items| ensures Before(items[k].path, item.path) {
          if k < last { BeforeTransitive(items[k].path, items[last].path, item.path); }
        }
      }
    }
  }

  /** Sorting keeps exactly the items and puts their paths in order. */
  lemma {:induction false} SortSorts(items: seq<Item>)
    requires DistinctPaths(items)
    ensures Sorted(SortByPath(items))
    ensures forall x :: x in SortByPath(items) <==> x in items
  {
    if items != [] {
      var last := |items| - 1;
      SortSorts(items[..last]);
      assert items == items[..last] + [items[last]];
      var front := SortByPath(items[..last]);
      forall k | 0 <= k < |front| ensures front[k].path != items[last].path {
        assert front[k] in front;
        assert front[k] in items[..last];
      }
      InsertSorts(front, items[last]);
    }
  }

  lemma {:induction false} SortedInit(items: seq<Item>)
    requires Sorted(items) && items != []
    ensures Sorted(items[..|items| - 1])
    ensures forall x :: x in items[..|items| - 1] <==> x in items && x != items[|items| - 1]
  {
    var last := |items| - 1;
    BeforeIrreflexive(items[last].path);
    assert items == items[..last] + [items[last]];
    forall x | x in items[..last] ensures x != items[last] {
      var k :| 0 <= k < last && items[..last][k] == x;
      assert items[k] == x && Before(items[k].path, items[last].path);
    }
  }

  lemma {:induction false} SameLast(items: seq<Item>, others: seq<Item>)
    requires Sorted(items) && Sorted(others) && items != [] && others != []
    requires items[|items| - 1] in others && others[|others| - 1] in items
    ensures items[|items| - 1] == others[|others| - 1]
  {
    var last, end := items[|items| - 1], others[|others| - 1];
    BeforeTotal(last.path, end.path);
    hide Before;
    var i :| 0 <= i < |others| && others[i] == last;
    var j :| 0 <= j < |items| && items[j] == end;
    assert i < |others| - 1 ==> Before(last.path, end.path);
    assert j < |items| - 1 ==> Before(end.path, last.path);
  }

  lemma {:induction false} SortedUnique(items: seq<Item>, others: seq<Item>)
    requires Sorted(items) && Sorted(others) && forall x :: x in items <==> x in others
    ensures items == others
    decreases |items|
  {
    hide Sorted;
    assert others != [] ==> others[0] in items;
    if items != [] {
      assert items[0] in others;
      var n, m := |items| - 1, |others| - 1;
      assert items[n] in others && others[m] in items;
      SameLast(items, others);
      SortedInit(items);
      SortedInit(others);
      forall x ensures x in items[..n] <==> x in others[..m] {
        assert x in items <==> x in others;
      }
      SortedUnique(items[..n], others[..m]);
      assert items == items[..n] + [items[n]] && others == others[..m] + [others[m]];
    }
  }

  /** "__pycache__", ".pyc" and ".pyo" in UTF-8 */
  predicate IsCacheName(part: Bytes) { part == [95, 95, 112, 121, 99, 97, 99, 104, 101, 95, 95] }

  predicate IsCompiledName(part: Bytes) {
    |part| > 4 && part[|part| - 4..] in {[46, 112, 121, 99], [46, 112, 121, 111]}
  }

  predicate CoveredEntry(entry: Entry) {
    && (forall k :: 0 <= k < |entry.parts| ==> !IsCacheName(entry.parts[k]))
    && (entry.parts != [] ==> !IsCompiledName(entry.parts[|entry.parts| - 1]))
  }

  /** Exactly what the digest covers: the regular files outside of cache directories that are no compiled
      modules; a link anywhere else makes the tree unusable. */
  lemma {:induction false} CoveredExactly(entries: seq<Entry>)
    ensures Listed(entries).None?
      <==> exists i :: 0 <= i < |entries| && CoveredEntry(entries[i]) && entries[i].kind.Link?
    ensures Listed(entries).Some? ==> forall item :: item in Listed(entries).value <==>
      exists i :: 0 <= i < |entries| && CoveredEntry(entries[i]) && entries[i].kind == Regular(item.payload)
                  && item.path == PathOf(entries[i].parts)
  {
    ListedMembers(entries);
    forall entry: Entry ensures Derived(entry) <==> !CoveredEntry(entry) { CoveredIs(entry); }
    hide Derived, CoveredEntry, Listed, PathOf;
  }

  lemma {:induction false} CoveredIs(entry: Entry)
    ensures Derived(entry) <==> !CoveredEntry(entry)
  {
    if PYCACHE in entry.parts {
      var k :| 0 <= k < |entry.parts| && entry.parts[k] == PYCACHE;
      assert IsCacheName(entry.parts[k]);
    }
  }

  /** Two enumerations of trees with the same files, refused alike. */
  ghost predicate SameFiles(entries: seq<Entry>, others: seq<Entry>) {
    forall item :: Holds(entries, item) <==> Holds(others, item)
  }

  ghost predicate AllFit(entries: seq<Entry>) {
    forall i :: 0 <= i < |entries| && entries[i].kind.Regular? ==>
        Fits(Item(PathOf(entries[i].parts), entries[i].kind.payload))
  }

  lemma {:induction false} SortedFits(entries: seq<Entry>)
    requires Tree(entries) && AllFit(entries) && Listed(entries).Some?
    ensures forall k :: 0 <= k < |SortByPath(Listed(entries).value)| ==> Fits(SortByPath(Listed(entries).value)[k])
  {
    var items := Listed(entries).value;
    ListedMembers(entries);
    ListedDistinct(entries);
    SortSorts(items);
    forall k | 0 <= k < |SortByPath(items)| ensures Fits(SortByPath(items)[k]) {
      assert SortByPath(items)[k] in SortByPath(items);
      assert SortByPath(items)[k] in items;
    }
  }

  /** The stream of a tree depends on which files it holds and on nothing else, whatever order its
      directories are enumerated in; and different files give different streams. */
  lemma {:induction false} StreamIsTree(entries: seq<Entry>, others: seq<Entry>)
    requires Tree(entries) && Tree(others) && AllFit(entries) && AllFit(others)
    requires TreeStream(entries).Some? && TreeStream(others).Some?
    ensures TreeStream(entries) == TreeStream(others) <==> SameFiles(entries, others)
  {
    var items, same := Listed(entries).value, Listed(others).value;
    ListedMembers(entries);
    ListedMembers(others);
    ListedDistinct(entries);
    ListedDistinct(others);
    SortSorts(items);
    SortSorts(same);
    SortedFits(entries);
    SortedFits(others);
    hide Holds, Listed, Tree, AllFit, Fits, Sorted, SortByPath, Stream;
    if TreeStream(entries) == TreeStream(others) {
      StreamInjective(SortByPath(items), SortByPath(same));
    }
    if SameFiles(entries, others) {
      SortedUnique(SortByPath(items), SortByPath(same));
    }
  }
}
