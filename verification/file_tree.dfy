/** Trees as they lie in a file system: a map from paths, and the list of its entries that a
    sorted pre-order walk gives. */
module FileTree {
  import opened Wire
  import opened Grammar
  import opened CaseHack

  /** A path from the root of the tree, component by component. */
  type Path = seq<Name>

  datatype Thing = FileThing(executable: bool, contents: bytes) | LinkThing(target: bytes) | DirThing

  datatype Listed = Listed(path: Path, thing: Thing)

  type FileSystem = map<Path, Thing>

  /** What `walkdir` gives for a tree at `path`: each directory before its entries, and these in
      the order of the directory. */
  function Walk(path: Path, n: Node<bytes>): seq<Listed>
    decreases n
  {
    match n
    case Regular(x, c) => [Listed(path, FileThing(x, c))]
    case Symlink(t) => [Listed(path, LinkThing(t))]
    case Directory(es) => [Listed(path, DirThing)] + WalkEntries(path, es)
  }

  function WalkEntries(path: Path, es: Entries<bytes>): seq<Listed>
    decreases es
  {
    match es
    case Nil => []
    case Entry(name, node, rest) => Walk(path + [name], node) + WalkEntries(path, rest)
  }

  predicate HasName(es: Entries<bytes>, name: Name) {
    es.Entry? && (es.name == name || HasName(es.rest, name))
  }

  /** A component of a path: not empty, without a slash, and neither `.` nor `..`. */
  predicate ValidName(name: Name) {
    name != [] && '/' as int !in name && name != ['.' as int] && name != ['.' as int, '.' as int]
  }

  /** Every directory has distinct, valid names. */
  predicate Distinct(n: Node<bytes>)
    decreases n
  {
    n.Directory? ==> DistinctEntries(n.entries)
  }

  predicate DistinctEntries(es: Entries<bytes>)
    decreases es
  {
    es.Entry? ==> ValidName(es.name) && !HasName(es.rest, es.name) && Distinct(es.node) && DistinctEntries(es.rest)
  }

  // ---------- order ----------

  /** The order of file names: byte by byte. */
  predicate NameLess(a: Name, b: Name) {
    b != [] && (a == [] || a[0] < b[0] || (a[0] == b[0] && NameLess(a[1..], b[1..])))
  }

  /** What that order is: the first byte in which two names differ decides, and a name that goes on
      comes after one that ends. */
  lemma {:induction false} NameOrder(p: Name, x: byte, s: Name, y: byte, t: Name)
    ensures NameLess(p + [x] + s, p + [y] + t) <==> x < y || (x == y && NameLess(s, t))
    ensures NameLess(p, p + [x] + s)
  {
    var a, b := p + [x] + s, p + [y] + t;
    if p == [] {
      assert a[1..] == s && b[1..] == t;
    } else {
      NameOrder(p[1..], x, s, y, t);
      assert a[1..] == p[1..] + [x] + s && b[1..] == p[1..] + [y] + t;
    }
  }

  /** Two different names part somewhere, so that this tells which of them is less. */
  lemma {:induction false} NamesPart(a: Name, b: Name) returns (p: Name)
    requires NameLess(a, b)
    ensures p <= a && p <= b && |p| < |b| && (p == a || (|p| < |a| && a[|p|] < b[|p|]))
  {
    if a == [] || a[0] < b[0] {
      p := [];
    } else {
      p := NamesPart(a[1..], b[1..]);
      p := [a[0]] + p;
    }
  }

  /** The order in which a sorted walk lists paths. */
  predicate PathLess(p: Path, q: Path) {
    q != [] && (p == [] || NameLess(p[0], q[0]) || (p[0] == q[0] && PathLess(p[1..], q[1..])))
  }

  lemma {:induction false} NameLessAsymmetric(a: Name, b: Name)
    requires NameLess(a, b)
    ensures !NameLess(b, a) && a != b
  {
    if a != [] && a[0] == b[0] { NameLessAsymmetric(a[1..], b[1..]); }
  }

  lemma {:induction false} NameLessIrreflexive(a: Name)
    ensures !NameLess(a, a)
  {
    if a != [] { NameLessIrreflexive(a[1..]); }
  }

  lemma {:induction false} PathLessAsymmetric(p: Path, q: Path)
    requires PathLess(p, q)
    ensures !PathLess(q, p) && p != q
  {
    if p != [] {
      if NameLess(p[0], q[0]) { NameLessAsymmetric(p[0], q[0]); }
      if PathLess(p[1..], q[1..]) { PathLessAsymmetric(p[1..], q[1..]); }
      if p[0] == q[0] { NameLessIrreflexive(p[0]); }
    }
  }

  lemma {:induction false} CommonPrefix(k: Path, p: Path, q: Path)
    requires PathLess(p, q)
    ensures PathLess(k + p, k + q)
  {
    if k == [] {
      assert k + p == p && k + q == q;
    } else {
      CommonPrefix(k[1..], p, q);
      assert (k + p)[1..] == k[1..] + p && (k + q)[1..] == k[1..] + q;
    }
  }

  // ---------- listings ----------

  /** How a dumper reads names: as they are, or without the case hack. */
  function Shown(hack: bool, name: Name): (r: Name)
    ensures r <= name
  {
    if hack then Strip(name) else name
  }

  function ShownPath(hack: bool, path: Path): (r: Path)
    ensures |r| == |path| && forall i | 0 <= i < |path| :: r[i] == Shown(hack, path[i])
  {
    seq(|path|, i requires 0 <= i < |path| => Shown(hack, path[i]))
  }

  /** Sorted by what the names show. */
  ghost predicate Sorted(hack: bool, list: seq<Listed>) {
    forall i, j | 0 <= i < j < |list| :: PathLess(ShownPath(hack, list[i].path), ShownPath(hack, list[j].path))
  }

  /** The list holds the entries of the file system. */
  ghost predicate Lists(fs: FileSystem, list: seq<Listed>) {
    && (forall e | e in list :: e.path in fs && fs[e.path] == e.thing)
    && (forall p | p in fs :: Listed(p, fs[p]) in list)
  }

  /** No directory has a name before one that shows less; names that show the same come in any
      order. */
  predicate Ordered(hack: bool, n: Node<bytes>)
    decreases n
  {
    n.Directory? ==> OrderedEntries(hack, n.entries)
  }

  predicate OrderedEntries(hack: bool, es: Entries<bytes>)
    decreases es
  {
    es.Entry? ==> NotAfter(hack, es.name, es.rest) && Ordered(hack, es.node) && OrderedEntries(hack, es.rest)
  }

  predicate NotAfter(hack: bool, name: Name, es: Entries<bytes>)
    decreases es
  {
    es.Entry? ==> !NameLess(Shown(hack, es.name), Shown(hack, name)) && NotAfter(hack, name, es.rest)
  }

  /** A tree is what `walkdir` finds in the file system, with the entries of each directory in the
      order of `sort_by_file_name` or `sort_case_hack`. */
  ghost predicate Finds(hack: bool, fs: FileSystem, n: Node<bytes>) {
    Distinct(n) && Ordered(hack, n) && Lists(fs, Walk([], n))
  }

  /** `walkdir`: the list of such a tree. */
  ghost predicate IsWalk(hack: bool, fs: FileSystem, list: seq<Listed>) {
    exists n :: Finds(hack, fs, n) && list == Walk([], n)
  }

  /** Two sorted lists of the same entries are the same list. */
  lemma {:induction false} SortedUnique(hack: bool, a: seq<Listed>, b: seq<Listed>)
    requires Sorted(hack, a) && Sorted(hack, b)
    requires forall e :: e in a <==> e in b
    ensures a == b
  {
    hide PathLess, ShownPath;
    assert a == [] || a[0] in b;
    assert b == [] || b[0] in a;
    if a != [] {
      SameHead(hack, a, b);
      forall e
        ensures e in a[1..] <==> e in b[1..]
      {
        SameTail(hack, a, b, e);
        SameTail(hack, b, a, e);
      }
      SortedUnique(hack, a[1..], b[1..]);
    }
  }

  lemma SameHead(hack: bool, a: seq<Listed>, b: seq<Listed>)
    requires Sorted(hack, a) && Sorted(hack, b) && a != [] && b != []
    requires forall e :: e in a <==> e in b
    ensures a[0] == b[0]
  {
    hide PathLess, ShownPath;
    assert a[0] in b && b[0] in a;
    var i :| 0 <= i < |b| && b[i] == a[0];
    var j :| 0 <= j < |a| && a[j] == b[0];
    if i > 0 && j > 0 {
      PathLessAsymmetric(ShownPath(hack, a[0].path), ShownPath(hack, b[0].path));
    }
  }

  lemma SameTail(hack: bool, a: seq<Listed>, b: seq<Listed>, e: Listed)
    requires Sorted(hack, a) && a != [] && b != [] && a[0] == b[0]
    requires forall e :: e in a <==> e in b
    ensures e in a[1..] ==> e in b[1..]
  {
    hide PathLess, ShownPath;
    if e in a[1..] {
      var i :| 0 <= i < |a| - 1 && a[1..][i] == e;
      PathLessAsymmetric(ShownPath(hack, a[0].path), ShownPath(hack, a[i + 1].path));
      assert e in b;
    }
  }

  // ---------- the walk of a tree is its listing ----------

  /** The names of the tree, as they are shown. */
  function ShownTree(hack: bool, n: Node<bytes>): Node<bytes>
    decreases n
  {
    if n.Directory? then Directory(ShownEntries(hack, n.entries)) else n
  }

  function ShownEntries(hack: bool, es: Entries<bytes>): Entries<bytes>
    decreases es
  {
    match es
    case Nil => Nil
    case Entry(name, node, rest) => Entry(Shown(hack, name), ShownTree(hack, node), ShownEntries(hack, rest))
  }

  /** Every directory is sorted by name. */
  predicate InOrder(n: Node<bytes>)
    decreases n
  {
    n.Directory? ==> InOrderEntries(n.entries)
  }

  predicate InOrderEntries(es: Entries<bytes>)
    decreases es
  {
    es.Entry? ==> Before(es.name, es.rest) && InOrder(es.node) && InOrderEntries(es.rest)
  }

  predicate Before(name: Name, es: Entries<bytes>) {
    es.Entry? ==> NameLess(name, es.name) && Before(name, es.rest)
  }

  /** Everything in the walk of an entry lies under its path, and its walk starts there. */
  lemma {:induction false} WalkUnder(path: Path, n: Node<bytes>, i: nat)
    requires i < |Walk(path, n)|
    ensures path <= Walk(path, n)[i].path && (i > 0 ==> Walk(path, n)[i].path != path)
    ensures Walk(path, n)[0].path == path
    decreases n
  {
    if n.Directory? && i > 0 { var _ := WalkEntriesUnder(path, n.entries, i - 1); }
  }

  lemma {:induction false} WalkEntriesUnder(path: Path, es: Entries<bytes>, i: nat) returns (name: Name)
    requires i < |WalkEntries(path, es)|
    ensures HasName(es, name) && path + [name] <= WalkEntries(path, es)[i].path
    decreases es
  {
    match es
    case Entry(n, node, rest) =>
      var w := Walk(path + [n], node);
      if i < |w| {
        WalkUnder(path + [n], node, i);
        name := n;
      } else {
        name := WalkEntriesUnder(path, rest, i - |w|);
      }
  }

  lemma {:induction false} BeforeAll(name: Name, es: Entries<bytes>, other: Name)
    requires Before(name, es) && HasName(es, other)
    ensures NameLess(name, other)
  {
    if es.name != other { BeforeAll(name, es.rest, other); }
  }

  ghost predicate Ascending(list: seq<Listed>) {
    forall i, j | 0 <= i < j < |list| :: PathLess(list[i].path, list[j].path)
  }

  lemma AscendingAppend(a: seq<Listed>, b: seq<Listed>)
    requires Ascending(a) && Ascending(b)
    requires forall i, j | 0 <= i < |a| && 0 <= j < |b| :: PathLess(a[i].path, b[j].path)
    ensures Ascending(a + b)
  {
    hide PathLess;
  }

  lemma PrefixLess(p: Path, q: Path)
    requires p <= q && p != q
    ensures PathLess(p, q)
  {
    CommonPrefix(p, [], q[|p|..]);
    assert p + [] == p && p + q[|p|..] == q;
  }

  lemma SiblingsLess(path: Path, m: Name, n: Name, p: Path, q: Path)
    requires path + [m] <= p && path + [n] <= q && NameLess(m, n)
    ensures PathLess(p, q)
  {
    var k := |path|;
    assert p[k] == m && q[k] == n;
    CommonPrefix(path, p[k..], q[k..]);
    assert path + p[k..] == p && path + q[k..] == q;
  }

  lemma {:induction false} WalkAscending(path: Path, n: Node<bytes>)
    requires InOrder(n)
    ensures Ascending(Walk(path, n))
    decreases n
  {
    hide PathLess;
    if n.Directory? {
      var a, b := [Listed(path, DirThing)], WalkEntries(path, n.entries);
      WalkEntriesAscending(path, n.entries);
      forall j | 0 <= j < |b|
        ensures PathLess(a[0].path, b[j].path)
      {
        var name := WalkEntriesUnder(path, n.entries, j);
        PrefixLess(path, b[j].path);
      }
      AscendingAppend(a, b);
    }
  }

  lemma {:induction false} WalkEntriesAscending(path: Path, es: Entries<bytes>)
    requires InOrderEntries(es)
    ensures Ascending(WalkEntries(path, es))
    decreases es
  {
    hide PathLess, NameLess;
    match es
    case Nil =>
    case Entry(name, node, rest) =>
      var a, b := Walk(path + [name], node), WalkEntries(path, rest);
      WalkAscending(path + [name], node);
      WalkEntriesAscending(path, rest);
      forall i, j | 0 <= i < |a| && 0 <= j < |b|
        ensures PathLess(a[i].path, b[j].path)
      {
        WalkUnder(path + [name], node, i);
        var other := WalkEntriesUnder(path, rest, j);
        BeforeAll(name, rest, other);
        SiblingsLess(path, name, other, a[i].path, b[j].path);
      }
      AscendingAppend(a, b);
  }

  function ShownList(hack: bool, list: seq<Listed>): (r: seq<Listed>)
    ensures |r| == |list| && forall i | 0 <= i < |list| :: r[i] == list[i].(path := ShownPath(hack, list[i].path))
  {
    seq(|list|, i requires 0 <= i < |list| => list[i].(path := ShownPath(hack, list[i].path)))
  }

  lemma {:induction false} ShownWalk(hack: bool, path: Path, n: Node<bytes>)
    ensures ShownList(hack, Walk(path, n)) == Walk(ShownPath(hack, path), ShownTree(hack, n))
    decreases n
  {
    hide Shown;
    if n.Directory? {
      ShownWalkEntries(hack, path, n.entries);
      var a, b := [Listed(path, DirThing)], WalkEntries(path, n.entries);
      assert ShownList(hack, a + b) == ShownList(hack, a) + ShownList(hack, b);
    }
  }

  lemma {:induction false} ShownWalkEntries(hack: bool, path: Path, es: Entries<bytes>)
    ensures ShownList(hack, WalkEntries(path, es)) == WalkEntries(ShownPath(hack, path), ShownEntries(hack, es))
    decreases es
  {
    hide Shown;
    match es
    case Nil =>
    case Entry(name, node, rest) =>
      var a, b := Walk(path + [name], node), WalkEntries(path, rest);
      ShownWalk(hack, path + [name], node);
      ShownWalkEntries(hack, path, rest);
      assert ShownPath(hack, path + [name]) == ShownPath(hack, path) + [Shown(hack, name)];
      assert ShownList(hack, a + b) == ShownList(hack, a) + ShownList(hack, b);
  }

  /** If the names of a tree show those of a sorted tree, its walk is sorted as the dumper sorts. */
  lemma WalkSorted(hack: bool, n: Node<bytes>)
    requires InOrder(ShownTree(hack, n))
    ensures Sorted(hack, Walk([], n))
  {
    hide PathLess, Walk, ShownTree, InOrder;
    var list := Walk([], n);
    ShownWalk(hack, [], n);
    WalkAscending(ShownPath(hack, []), ShownTree(hack, n));
    var shown := ShownList(hack, list);
    forall i, j | 0 <= i < j < |list|
      ensures PathLess(ShownPath(hack, list[i].path), ShownPath(hack, list[j].path))
    {
      assert PathLess(shown[i].path, shown[j].path);
    }
  }

  // ---------- adding to a file system ----------

  function AddAll(fs: FileSystem, list: seq<Listed>): FileSystem
    decreases |list|
  {
    if list == [] then fs else AddAll(fs[list[0].path := list[0].thing], list[1..])
  }

  lemma {:induction false} AddAllAppend(fs: FileSystem, a: seq<Listed>, b: seq<Listed>)
    ensures AddAll(fs, a + b) == AddAll(AddAll(fs, a), b)
    decreases |a|
  {
    if a == [] {
      assert a + b == b;
    } else {
      assert (a + b)[1..] == a[1..] + b;
      AddAllAppend(fs[a[0].path := a[0].thing], a[1..], b);
    }
  }

  /** What is in the file system afterwards: what was there, and the list. */
  lemma {:induction false} AddAllHas(fs: FileSystem, list: seq<Listed>, p: Path)
    ensures p in AddAll(fs, list) <==> p in fs || exists i :: 0 <= i < |list| && list[i].path == p
    ensures (forall i | 0 <= i < |list| :: list[i].path != p) && p in fs ==> AddAll(fs, list)[p] == fs[p]
    decreases |list|
  {
    if list != [] {
      AddAllHas(fs[list[0].path := list[0].thing], list[1..], p);
      assert forall i | 0 <= i < |list| - 1 :: list[1..][i] == list[i + 1];
    }
  }

  lemma {:induction false} AddAllGets(fs: FileSystem, list: seq<Listed>, i: nat)
    requires i < |list| && forall j | i < j < |list| :: list[j].path != list[i].path
    ensures list[i].path in AddAll(fs, list) && AddAll(fs, list)[list[i].path] == list[i].thing
    decreases |list|
  {
    var fs' := fs[list[0].path := list[0].thing];
    if i == 0 {
      AddAllHas(fs', list[1..], list[0].path);
    } else {
      AddAllGets(fs', list[1..], i - 1);
    }
  }

  /** No path is in the list twice. */
  ghost predicate PathsDiffer(list: seq<Listed>) {
    forall i, j | 0 <= i < j < |list| :: list[i].path != list[j].path
  }

  /** Such a list lists what it adds to nothing. */
  lemma AddAllLists(list: seq<Listed>)
    requires PathsDiffer(list)
    ensures Lists(AddAll(map[], list), list)
  {
    var fs := AddAll(map[], list);
    forall i | 0 <= i < |list|
      ensures list[i].path in fs && fs[list[i].path] == list[i].thing
    {
      assert forall j | i < j < |list| :: list[i].path != list[j].path;
      AddAllGets(map[], list, i);
    }
    forall p | p in fs
      ensures Listed(p, fs[p]) in list
    {
      AddAllHas(map[], list, p);
    }
  }

  lemma {:induction false} WalkDiffers(path: Path, n: Node<bytes>)
    requires Distinct(n)
    ensures PathsDiffer(Walk(path, n))
    decreases n
  {
    hide ValidName;
    if n.Directory? {
      WalkEntriesDiffer(path, n.entries);
      forall j | 0 <= j < |WalkEntries(path, n.entries)|
        ensures WalkEntries(path, n.entries)[j].path != path
      {
        var name := WalkEntriesUnder(path, n.entries, j);
      }
    }
  }

  lemma {:induction false} WalkEntriesDiffer(path: Path, es: Entries<bytes>)
    requires DistinctEntries(es)
    ensures PathsDiffer(WalkEntries(path, es))
    decreases es
  {
    hide ValidName;
    match es
    case Nil =>
    case Entry(name, node, rest) =>
      var a, b := Walk(path + [name], node), WalkEntries(path, rest);
      WalkDiffers(path + [name], node);
      WalkEntriesDiffer(path, rest);
      forall i, j | 0 <= i < |a| && 0 <= j < |b|
        ensures a[i].path != b[j].path
      {
        WalkUnder(path + [name], node, i);
        var other := WalkEntriesUnder(path, rest, j);
        assert a[i].path[|path|] == name && b[j].path[|path|] == other;
      }
  }

  // ---------- directories without ties ----------

  lemma {:induction false} NameLessTotal(a: Name, b: Name)
    requires a != b
    ensures NameLess(a, b) || NameLess(b, a)
  {
    if a != [] && b != [] && a[0] == b[0] {
      assert a == [a[0]] + a[1..] && b == [b[0]] + b[1..];
      NameLessTotal(a[1..], b[1..]);
    }
  }

  /** No two entries of the list show the same path. */
  ghost predicate Separate(hack: bool, list: seq<Listed>) {
    forall i, j | 0 <= i < |list| && 0 <= j < |list| &&
      ShownPath(hack, list[i].path) == ShownPath(hack, list[j].path) ::
      list[i].path == list[j].path
  }

  /** Then every directory is sorted without ties. */
  lemma {:induction false} NoTies(hack: bool, path: Path, n: Node<bytes>)
    requires Distinct(n) && Ordered(hack, n) && Separate(hack, Walk(path, n))
    ensures InOrder(ShownTree(hack, n))
    decreases n, 1
  {
    hide ValidName, NameLess, ShownPath, Shown;
    if n.Directory? {
      var w := WalkEntries(path, n.entries);
      assert Walk(path, n)[1..] == w;
      forall i, j | 0 <= i < |w| && 0 <= j < |w| && ShownPath(hack, w[i].path) == ShownPath(hack, w[j].path)
        ensures w[i].path == w[j].path
      {
        assert w[i] == Walk(path, n)[i + 1] && w[j] == Walk(path, n)[j + 1];
      }
      NoTiesAmong(hack, path, n.entries);
    }
  }

  lemma {:induction false} NoTiesAmong(hack: bool, path: Path, es: Entries<bytes>)
    requires DistinctEntries(es) && OrderedEntries(hack, es) && Separate(hack, WalkEntries(path, es))
    ensures InOrderEntries(ShownEntries(hack, es))
    decreases es, 0
  {
    hide ValidName, NameLess, ShownPath, Shown;
    if es.Entry? {
      var a, b := Walk(path + [es.name], es.node), WalkEntries(path, es.rest);
      var w := a + b;
      SeparateParts(hack, a, b);
      NoTies(hack, path + [es.name], es.node);
      NoTiesAmong(hack, path, es.rest);
      WalkUnder(path + [es.name], es.node, 0);
      assert w[0].path == path + [es.name];
      NoTieWith(hack, path, es.name, es.rest, w);
    }
  }

  lemma SameShownPath(hack: bool, path: Path, a: Name, b: Name)
    ensures Shown(hack, a) == Shown(hack, b) ==> ShownPath(hack, path + [a]) == ShownPath(hack, path + [b])
  {
    hide Shown;
  }

  lemma SeparateParts(hack: bool, a: seq<Listed>, b: seq<Listed>)
    requires Separate(hack, a + b)
    ensures Separate(hack, a) && Separate(hack, b)
  {
    hide ShownPath;
    assert forall i | 0 <= i < |a| :: (a + b)[i] == a[i];
    assert forall i | 0 <= i < |b| :: (a + b)[|a| + i] == b[i];
  }

  /** A name that is first among its siblings, in a list that has them all. */
  lemma {:induction false} NoTieWith(hack: bool, path: Path, name: Name, es: Entries<bytes>, w: seq<Listed>)
    requires NotAfter(hack, name, es) && !HasName(es, name) && Separate(hack, w)
    requires exists i :: 0 <= i < |w| && w[i].path == path + [name]
    requires forall e | e in WalkEntries(path, es) :: e in w
    ensures Before(Shown(hack, name), ShownEntries(hack, es))
    decreases es
  {
    hide NameLess, Shown;
    if es.Entry? {
      var first := Walk(path + [es.name], es.node);
      WalkUnder(path + [es.name], es.node, 0);
      assert first[0] == WalkEntries(path, es)[0] && first[0] in w;
      var j :| 0 <= j < |w| && w[j] == first[0];
      var i :| 0 <= i < |w| && w[i].path == path + [name];
      var p, q := path + [name], path + [es.name];
      assert p[|path|] == name && q[|path|] == es.name;
      SameShownPath(hack, path, name, es.name);
      NameLessTotal(Shown(hack, name), Shown(hack, es.name));
      assert forall e | e in WalkEntries(path, es.rest) :: e in WalkEntries(path, es);
      NoTieWith(hack, path, name, es.rest, w);
    }
  }

  // ---------- the order of a walk ----------

  lemma {:induction false} NotAfterOne(hack: bool, name: Name, es: Entries<bytes>, other: Name)
    requires NotAfter(hack, name, es) && HasName(es, other)
    ensures !NameLess(Shown(hack, other), Shown(hack, name))
    decreases es
  {
    hide NameLess, Shown;
    if es.name != other { NotAfterOne(hack, name, es.rest, other); }
  }

  /** The paths part at component `k`. */
  ghost predicate PartAt(p: Path, q: Path, k: nat) {
    k < |p| && k < |q| && p[..k] == q[..k] && p[k] != q[k]
  }

  /** An earlier entry of a walk does not lie under a later one, and where their paths part it does
      not show a greater name. */
  ghost predicate ComesFirst(hack: bool, p: Path, q: Path) {
    && !(q <= p)
    && forall k: nat | PartAt(p, q, k) :: !NameLess(Shown(hack, q[k]), Shown(hack, p[k]))
  }

  lemma {:induction false} WalkOrder(hack: bool, path: Path, n: Node<bytes>, i: nat, j: nat)
    requires Distinct(n) && Ordered(hack, n) && i < j < |Walk(path, n)|
    ensures ComesFirst(hack, Walk(path, n)[i].path, Walk(path, n)[j].path)
    decreases n
  {
    hide NameLess, Shown, ValidName;
    var w := WalkEntries(path, n.entries);
    if i == 0 {
      WalkUnder(path, n, j);
      assert forall k: nat | k < |path| :: w[j - 1].path[k] == path[k];
    } else {
      WalkOrderAmong(hack, path, n.entries, i - 1, j - 1);
    }
  }

  lemma {:induction false} WalkOrderAmong(hack: bool, path: Path, es: Entries<bytes>, i: nat, j: nat)
    requires DistinctEntries(es) && OrderedEntries(hack, es) && i < j < |WalkEntries(path, es)|
    ensures ComesFirst(hack, WalkEntries(path, es)[i].path, WalkEntries(path, es)[j].path)
    decreases es
  {
    hide NameLess, Shown, ValidName;
    var a, b := Walk(path + [es.name], es.node), WalkEntries(path, es.rest);
    if j < |a| {
      WalkOrder(hack, path + [es.name], es.node, i, j);
    } else if i >= |a| {
      WalkOrderAmong(hack, path, es.rest, i - |a|, j - |a|);
    } else {
      WalkUnder(path + [es.name], es.node, i);
      var other := WalkEntriesUnder(path, es.rest, j - |a|);
      NotAfterOne(hack, es.name, es.rest, other);
      Siblings(hack, path, es.name, other, a[i].path, b[j - |a|].path);
    }
  }

  lemma Siblings(hack: bool, path: Path, m: Name, n: Name, p: Path, q: Path)
    requires path + [m] <= p && path + [n] <= q && m != n && !NameLess(Shown(hack, n), Shown(hack, m))
    ensures ComesFirst(hack, p, q)
  {
    hide NameLess, Shown;
    assert p[|path|] == m && q[|path|] == n;
    assert forall k: nat | k < |path| :: p[k] == path[k] == q[k];
    assert forall k: nat | PartAt(p, q, k) :: k <= |path|;
  }

  /** So two names of one directory are listed in the order of their bytes, as they are shown. */
  lemma SiblingOrder(hack: bool, fs: FileSystem, list: seq<Listed>, i: nat, j: nat, dir: Path, m: Name, n: Name)
    requires IsWalk(hack, fs, list) && i < |list| && j < |list|
    requires list[i].path == dir + [m] && list[j].path == dir + [n] && NameLess(Shown(hack, m), Shown(hack, n))
    ensures i < j
  {
    hide NameLess, Shown, Walk, Distinct, Ordered;
    var t :| Finds(hack, fs, t) && list == Walk([], t);
    NameLessIrreflexive(Shown(hack, m));
    var p, q := dir + [m], dir + [n];
    assert p[|dir|] == m && q[|dir|] == n;
    assert PartAt(q, p, |dir|);
    if j < i { WalkOrder(hack, [], t, j, i); }
  }

  /** In bytes: the first one in which the two names differ decides, and a name that goes on comes
      after one that ends. */
  lemma ByteOrder(hack: bool, fs: FileSystem, list: seq<Listed>, i: nat, j: nat, dir: Path, m: Name, n: Name)
    requires IsWalk(hack, fs, list) && i < |list| && j < |list|
    requires list[i].path == dir + [m] && list[j].path == dir + [n]
    ensures var a, b := Shown(hack, m), Shown(hack, n);
      && (forall p: Name, x: byte, s: Name, y: byte, t: Name | a == p + [x] + s && b == p + [y] + t && x < y :: i < j)
      && (forall y: byte, t: Name | b == a + [y] + t :: i < j)
  {
    hide NameLess, Shown, IsWalk;
    var a, b := Shown(hack, m), Shown(hack, n);
    forall p: Name, x: byte, s: Name, y: byte, t: Name | a == p + [x] + s && b == p + [y] + t && x < y
      ensures i < j
    {
      NameOrder(p, x, s, y, t);
      SiblingOrder(hack, fs, list, i, j, dir, m, n);
    }
    forall y: byte, t: Name | b == a + [y] + t
      ensures i < j
    {
      NameOrder(a, y, t, y, t);
      SiblingOrder(hack, fs, list, i, j, dir, m, n);
    }
  }

  /** And a directory before everything that is under it. */
  lemma ParentFirst(hack: bool, fs: FileSystem, list: seq<Listed>, i: nat, j: nat)
    requires IsWalk(hack, fs, list) && i < |list| && j < |list|
    requires list[i].path <= list[j].path && list[i].path != list[j].path
    ensures i < j
  {
    hide NameLess, Shown, Walk, Distinct, Ordered;
    var t :| Finds(hack, fs, t) && list == Walk([], t);
    if j < i { WalkOrder(hack, [], t, j, i); }
  }

  // ---------- the total length of the shown names ----------

  function Weight(hack: bool, e: Listed): nat {
    if e.path == [] then 0 else |Shown(hack, e.path[|e.path| - 1])|
  }

  function Sum(hack: bool, list: seq<Listed>): nat {
    if list == [] then 0 else Weight(hack, list[0]) + Sum(hack, list[1..])
  }

  lemma {:induction false} SumAppend(hack: bool, a: seq<Listed>, b: seq<Listed>)
    ensures Sum(hack, a + b) == Sum(hack, a) + Sum(hack, b)
  {
    hide Weight;
    if a == [] {
      assert a + b == b;
    } else {
      SumAppend(hack, a[1..], b);
      assert (a + b)[1..] == a[1..] + b;
    }
  }

  /** Lists of the same entries, none of them twice, have the same sum. */
  lemma {:induction false} SameSum(hack: bool, a: seq<Listed>, b: seq<Listed>)
    requires PathsDiffer(a) && PathsDiffer(b) && forall e :: e in a <==> e in b
    ensures Sum(hack, a) == Sum(hack, b)
    decreases |a|
  {
    hide Weight;
    assert b == [] || b[0] in a;
    if a != [] {
      assert a[0] in b;
      var j :| 0 <= j < |b| && b[j] == a[0];
      var x, y := b[..j], b[j + 1..];
      assert b == x + ([b[j]] + y);
      SumAppend(hack, x, [b[j]] + y);
      SumAppend(hack, x, y);
      Without(a, b, j);
      SameSum(hack, a[1..], x + y);
    }
  }

  lemma Without(a: seq<Listed>, b: seq<Listed>, j: nat)
    requires PathsDiffer(a) && PathsDiffer(b) && (forall e :: e in a <==> e in b) && a != [] && j < |b| && b[j] == a[0]
    ensures PathsDiffer(b[..j] + b[j + 1..]) && forall e :: e in a[1..] <==> e in b[..j] + b[j + 1..]
  {
    var x, y := b[..j], b[j + 1..];
    forall e
      ensures e in a[1..] <==> e in x + y
    {
      assert a == [a[0]] + a[1..] && b == x + ([b[j]] + y);
      assert e in a <==> e == a[0] || e in a[1..];
      assert e in b <==> e == b[j] || e in x + y;
      assert a[0] !in a[1..];
      assert b[j] !in x && b[j] !in y;
    }
  }

  /** The total length of the names of a tree. */
  function Total(n: Node<bytes>): nat
    decreases n
  {
    if n.Directory? then TotalAmong(n.entries) else 0
  }

  function TotalAmong(es: Entries<bytes>): nat
    decreases es
  {
    if es.Entry? then |es.name| + Total(es.node) + TotalAmong(es.rest) else 0
  }

  lemma {:induction false} SumOfWalk(hack: bool, path: Path, n: Node<bytes>)
    ensures Sum(hack, Walk(path, n)) == Weight(hack, Walk(path, n)[0]) + Total(ShownTree(hack, n))
    decreases n
  {
    hide Weight;
    if n.Directory? {
      SumOfEntries(hack, path, n.entries);
      assert Walk(path, n)[1..] == WalkEntries(path, n.entries);
    } else {
      assert Walk(path, n)[1..] == [];
    }
  }

  lemma {:induction false} SumOfEntries(hack: bool, path: Path, es: Entries<bytes>)
    ensures Sum(hack, WalkEntries(path, es)) == TotalAmong(ShownEntries(hack, es))
    decreases es
  {
    hide Shown;
    if es.Entry? {
      var p := path + [es.name];
      SumAppend(hack, Walk(p, es.node), WalkEntries(path, es.rest));
      SumOfWalk(hack, p, es.node);
      SumOfEntries(hack, path, es.rest);
      WalkUnder(p, es.node, 0);
      assert p[|p| - 1] == es.name;
    }
  }

  // ---------- every tree can be walked ----------

  lemma {:induction false} NameLessTransitive(a: Name, b: Name, c: Name)
    requires NameLess(a, b) && NameLess(b, c)
    ensures NameLess(a, c)
  {
    if a != [] && a[0] == b[0] == c[0] { NameLessTransitive(a[1..], b[1..], c[1..]); }
  }

  /** Not after, in the order of names, is transitive. */
  lemma NotLessTransitive(a: Name, b: Name, c: Name)
    requires !NameLess(b, a) && !NameLess(c, b)
    ensures !NameLess(c, a)
  {
    hide NameLess;
    if NameLess(c, a) && a != b && b != c {
      NameLessTotal(a, b);
      NameLessTotal(b, c);
      NameLessTransitive(c, a, b);
      NameLessAsymmetric(c, b);
    }
  }

  function Insert(hack: bool, name: Name, node: Node<bytes>, es: Entries<bytes>): Entries<bytes>
    decreases es
  {
    if es.Entry? && NameLess(Shown(hack, es.name), Shown(hack, name))
    then Entry(es.name, es.node, Insert(hack, name, node, es.rest))
    else Entry(name, node, es)
  }

  function SortTree(hack: bool, n: Node<bytes>): Node<bytes>
    decreases n
  {
    if n.Directory? then Directory(SortEntries(hack, n.entries)) else n
  }

  function SortEntries(hack: bool, es: Entries<bytes>): Entries<bytes>
    decreases es
  {
    if es.Entry? then Insert(hack, es.name, SortTree(hack, es.node), SortEntries(hack, es.rest)) else Nil
  }

  lemma {:induction false} InsertNames(hack: bool, name: Name, node: Node<bytes>, es: Entries<bytes>, x: Name)
    ensures HasName(Insert(hack, name, node, es), x) <==> x == name || HasName(es, x)
    decreases es
  {
    hide NameLess, Shown;
    if es.Entry? { InsertNames(hack, name, node, es.rest, x); }
  }

  lemma {:induction false} InsertDistinct(hack: bool, name: Name, node: Node<bytes>, es: Entries<bytes>)
    requires ValidName(name) && !HasName(es, name) && Distinct(node) && DistinctEntries(es)
    ensures DistinctEntries(Insert(hack, name, node, es))
    decreases es
  {
    hide NameLess, Shown, ValidName;
    if es.Entry? {
      InsertDistinct(hack, name, node, es.rest);
      InsertNames(hack, name, node, es.rest, es.name);
    }
  }

  lemma {:induction false} NotAfterAll(hack: bool, a: Name, b: Name, es: Entries<bytes>)
    requires !NameLess(Shown(hack, b), Shown(hack, a)) && NotAfter(hack, b, es)
    ensures NotAfter(hack, a, es)
    decreases es
  {
    hide NameLess, Shown;
    if es.Entry? {
      NotLessTransitive(Shown(hack, a), Shown(hack, b), Shown(hack, es.name));
      NotAfterAll(hack, a, b, es.rest);
    }
  }

  lemma {:induction false} NotAfterInsert(hack: bool, a: Name, name: Name, node: Node<bytes>, es: Entries<bytes>)
    requires !NameLess(Shown(hack, name), Shown(hack, a)) && NotAfter(hack, a, es)
    ensures NotAfter(hack, a, Insert(hack, name, node, es))
    decreases es
  {
    hide NameLess, Shown;
    if es.Entry? { NotAfterInsert(hack, a, name, node, es.rest); }
  }

  lemma {:induction false} InsertOrdered(hack: bool, name: Name, node: Node<bytes>, es: Entries<bytes>)
    requires Ordered(hack, node) && OrderedEntries(hack, es)
    ensures OrderedEntries(hack, Insert(hack, name, node, es))
    decreases es
  {
    hide NameLess, Shown;
    if es.Entry? {
      if NameLess(Shown(hack, es.name), Shown(hack, name)) {
        NameLessAsymmetric(Shown(hack, es.name), Shown(hack, name));
        InsertOrdered(hack, name, node, es.rest);
        NotAfterInsert(hack, es.name, name, node, es.rest);
      } else {
        NotAfterAll(hack, name, es.name, es.rest);
      }
    }
  }

  lemma {:induction false} InsertWalk(hack: bool, path: Path, name: Name, node: Node<bytes>, es: Entries<bytes>,
                                      e: Listed)
    ensures e in WalkEntries(path, Insert(hack, name, node, es)) <==>
            e in Walk(path + [name], node) || e in WalkEntries(path, es)
    decreases es
  {
    hide NameLess, Shown, Walk;
    if es.Entry? { InsertWalk(hack, path, name, node, es.rest, e); }
  }

  /** Sorting the directories of a tree keeps its entries. */
  lemma {:induction false} SortedTree(hack: bool, path: Path, n: Node<bytes>)
    requires Distinct(n)
    ensures Distinct(SortTree(hack, n)) && Ordered(hack, SortTree(hack, n))
    ensures forall e :: e in Walk(path, SortTree(hack, n)) <==> e in Walk(path, n)
    decreases n
  {
    hide ValidName;
    if n.Directory? { SortedAmong(hack, path, n.entries); }
  }

  lemma {:induction false} SortedAmong(hack: bool, path: Path, es: Entries<bytes>)
    requires DistinctEntries(es)
    ensures DistinctEntries(SortEntries(hack, es)) && OrderedEntries(hack, SortEntries(hack, es))
    ensures forall x :: HasName(SortEntries(hack, es), x) <==> HasName(es, x)
    ensures forall e :: e in WalkEntries(path, SortEntries(hack, es)) <==> e in WalkEntries(path, es)
    decreases es
  {
    hide ValidName, Walk, Insert;
    if es.Entry? {
      var node, rest := SortTree(hack, es.node), SortEntries(hack, es.rest);
      SortedTree(hack, path + [es.name], es.node);
      SortedAmong(hack, path, es.rest);
      InsertDistinct(hack, es.name, node, rest);
      InsertOrdered(hack, es.name, node, rest);
      forall x ensures HasName(Insert(hack, es.name, node, rest), x) <==> x == es.name || HasName(rest, x) {
        InsertNames(hack, es.name, node, rest, x);
      }
      forall e
        ensures e in WalkEntries(path, Insert(hack, es.name, node, rest)) <==>
                e in Walk(path + [es.name], node) || e in WalkEntries(path, rest)
      {
        InsertWalk(hack, path, es.name, node, rest, e);
      }
    }
  }

  /** What a tree adds to an empty file system can be walked. */
  lemma WalkExists(hack: bool, n: Node<bytes>)
    requires Distinct(n)
    ensures Finds(hack, AddAll(map[], Walk([], n)), SortTree(hack, n))
  {
    hide Walk, Distinct, Ordered, SortTree;
    SortedTree(hack, [], n);
    WalkDiffers([], n);
    AddAllLists(Walk([], n));
  }
}
