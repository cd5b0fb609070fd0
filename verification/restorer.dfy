/** `NarRestorer`: events become files, links and directories; with the case hack, names that
    collide are marked. */
module Restorers {
  import opened Wire
  import opened Streams
  import opened Grammar
  import opened CaseHack
  import opened FileTree
  import opened Dumpers
  import EventLog
  import Unambiguous

  /** Whether the case hack is on, what ignoring case means, and what the file system compares of a
      name: two names are the same to it if they fold to the same. */
  datatype Options = Options(hack: bool, lower: Name -> bytes, fold: Name -> bytes) {
    function Folded(path: Path): (r: seq<bytes>)
      ensures |r| == |path| && forall i | 0 <= i < |path| :: r[i] == fold(path[i])
    {
      seq(|path|, i requires 0 <= i < |path| => fold(path[i]))
    }

    /** There is something at the path. */
    predicate Taken(fs: FileSystem, path: Path) {
      exists p | p in fs :: Folded(p) == Folded(path)
    }

    /** There is a directory around the path. */
    predicate HasParent(fs: FileSystem, path: Path) {
      path == [] || exists p | p in fs :: Folded(p) == Folded(Pop(path)) && fs[p].DirThing?
    }

    function Naming(counts: map<bytes, nat>, name: Name): (Name, map<bytes, nat>) {
      if hack then HackName(lower, counts, name) else (name, counts)
    }
  }

  /** `join_name`. */
  function Join(path: Path, name: Name): Path { if name == [] then path else path + [name] }

  /** Creating something: not over something else, and in a directory. */
  function Create(o: Options, fs: FileSystem, path: Path, thing: Thing): Option<FileSystem> {
    if o.Taken(fs, path) || !o.HasParent(fs, path) then None else Some(fs[path := thing])
  }

  datatype State = State(path: Path, counts: map<bytes, nat>, stack: seq<map<bytes, nat>>, fs: FileSystem)

  /** `start_send`, and what it has done when the restorer is ready again. */
  function Send(o: Options, s: State, e: NarEvent): Option<State> {
    match e
    case EndDirectory =>
      var n := |s.stack|;
      Some(s.(path := Pop(s.path),
              counts := if o.hack then if n > 0 then s.stack[n - 1] else map[] else s.counts,
              stack := if o.hack && n > 0 then s.stack[..n - 1] else s.stack))
    case _ =>
      var (name, counts) := o.Naming(s.counts, e.name);
      var path := Join(s.path, name);
      var fs := Create(o, s.fs, path, ThingOf(e));
      if fs.None? then None
      else if !e.StartDirectory? then Some(s.(counts := counts, fs := fs.value))
      else if !o.hack then Some(s.(path := path, fs := fs.value))
      else Some(State(path, map[], s.stack + [counts], fs.value))
  }

  function ThingOf(e: NarEvent): Thing
    requires !e.EndDirectory?
  {
    match e
    case FileEvent(_, x, _, c) => FileThing(x, c)
    case SymlinkEvent(_, t) => LinkThing(t)
    case StartDirectory(_) => DirThing
  }

  function Restore(o: Options, s: State, events: seq<NarEvent>): Option<State>
    decreases |events|
  {
    if events == [] then Some(s)
    else
      var s' := Send(o, s, events[0]);
      if s'.None? then None else Restore(o, s'.value, events[1..])
  }

  lemma RestoreFirst(o: Options, s: State, e: NarEvent, rest: seq<NarEvent>)
    ensures Restore(o, s, [e] + rest) == if Send(o, s, e).None? then None else Restore(o, Send(o, s, e).value, rest)
  {
    hide Send;
    assert ([e] + rest)[1..] == rest;
  }

  // ---------- any events ----------

  /** Everything lies in a directory, and no two paths are the same to the file system. */
  ghost predicate IsTree(o: Options, fs: FileSystem) {
    && (forall p | p in fs :: o.HasParent(fs, p))
    && (forall p, q | p in fs && q in fs && o.Folded(p) == o.Folded(q) :: p == q)
  }

  /** Creating something adds one path, and changes nothing else. */
  lemma CreateKeeps(o: Options, fs: FileSystem, path: Path, thing: Thing)
    requires IsTree(o, fs) && Create(o, fs, path, thing).Some?
    ensures var made := Create(o, fs, path, thing).value;
      && IsTree(o, made) && path !in fs && made.Keys == fs.Keys + {path} && made[path] == thing
      && forall p | p in fs :: made[p] == fs[p]
  {
    var made := Create(o, fs, path, thing).value;
    forall p | p in made
      ensures o.HasParent(made, p)
    {
      if p != [] {
        var q :| q in fs && o.Folded(q) == o.Folded(Pop(p)) && fs[q].DirThing?;
        assert made[q] == fs[q];
      }
    }
  }

  /** Whatever events are sent, what is made stays a tree, and nothing that was there is changed. */
  lemma {:induction false} RestoreKeeps(o: Options, s: State, events: seq<NarEvent>)
    requires IsTree(o, s.fs) && Restore(o, s, events).Some?
    ensures var fs := Restore(o, s, events).value.fs;
      IsTree(o, fs) && forall p | p in s.fs :: p in fs && fs[p] == s.fs[p]
    decreases |events|
  {
    hide Create, IsTree, HackName;
    if events != [] {
      var e := events[0];
      if !e.EndDirectory? { CreateKeeps(o, s.fs, Join(s.path, o.Naming(s.counts, e.name).0), ThingOf(e)); }
      RestoreKeeps(o, Send(o, s, e).value, events[1..]);
    }
  }

  // ---------- what a restored tree is called ----------

  function Renamed(o: Options, n: Node<bytes>): Node<bytes>
    decreases n
  {
    if n.Directory? then Directory(RenamedEntries(o, map[], n.entries)) else n
  }

  function RenamedEntries(o: Options, counts: map<bytes, nat>, es: Entries<bytes>): Entries<bytes>
    decreases es
  {
    match es
    case Nil => Nil
    case Entry(name, node, rest) =>
      var (n, c) := o.Naming(counts, name);
      Entry(n, Renamed(o, node), RenamedEntries(o, c, rest))
  }

  function CountsAfter(o: Options, counts: map<bytes, nat>, es: Entries<bytes>): map<bytes, nat>
    decreases es
  {
    if es.Nil? then counts else CountsAfter(o, o.Naming(counts, es.name).1, es.rest)
  }

  // ---------- restoring a tree ----------

  /** There is a directory for `path`, and nothing at or under it. */
  ghost predicate Room(o: Options, fs: FileSystem, path: Path) {
    && (path != [] ==> Pop(path) in fs && fs[Pop(path)].DirThing?)
    && forall p | p in fs :: !(o.Folded(path) <= o.Folded(p))
  }

  ghost predicate RoomFor(o: Options, fs: FileSystem, path: Path, es: Entries<bytes>) {
    forall name | HasName(es, name) :: Room(o, fs, path + [name])
  }

  lemma RoomToCreate(o: Options, fs: FileSystem, path: Path, thing: Thing)
    requires Room(o, fs, path)
    ensures Create(o, fs, path, thing) == Some(fs[path := thing])
  {}

  // ---------- names that the file system tells apart ----------

  predicate HasFold(o: Options, es: Entries<bytes>, l: bytes)
    decreases es
  {
    es.Entry? && (o.fold(es.name) == l || HasFold(o, es.rest, l))
  }

  /** Every directory has valid names, and the file system tells them apart. */
  predicate Apart(o: Options, n: Node<bytes>)
    decreases n
  {
    n.Directory? ==> ApartEntries(o, n.entries)
  }

  predicate ApartEntries(o: Options, es: Entries<bytes>)
    decreases es
  {
    es.Entry? ==>
      ValidName(es.name) && !HasFold(o, es.rest, o.fold(es.name)) && Apart(o, es.node) && ApartEntries(o, es.rest)
  }

  lemma {:induction false} HasFoldOf(o: Options, es: Entries<bytes>, x: Name)
    requires HasName(es, x)
    ensures HasFold(o, es, o.fold(x))
    decreases es
  {
    if es.name != x { HasFoldOf(o, es.rest, x); }
  }

  lemma {:induction false} NameWithFold(o: Options, es: Entries<bytes>, l: bytes) returns (x: Name)
    requires HasFold(o, es, l)
    ensures HasName(es, x) && o.fold(x) == l
    decreases es
  {
    if o.fold(es.name) == l { x := es.name; } else { x := NameWithFold(o, es.rest, l); }
  }

  lemma {:induction false} ApartIsDistinct(o: Options, n: Node<bytes>)
    requires Apart(o, n)
    ensures Distinct(n)
    decreases n
  {
    if n.Directory? { ApartAreDistinct(o, n.entries); }
  }

  lemma {:induction false} ApartAreDistinct(o: Options, es: Entries<bytes>)
    requires ApartEntries(o, es)
    ensures DistinctEntries(es)
    decreases es
  {
    hide ValidName;
    if es.Entry? {
      if HasName(es.rest, es.name) { HasFoldOf(o, es.rest, es.name); }
      ApartIsDistinct(o, es.node);
      ApartAreDistinct(o, es.rest);
    }
  }

  /** Without the hack the counters are not touched, so that all states agree on them. */
  ghost predicate Ready(o: Options, s: State) { !o.hack ==> s.counts == map[] }

  /** The state after a tree was restored under a name. */
  function WithNode(o: Options, s: State, name: Name, n: Node<bytes>): State {
    var (m, c) := o.Naming(s.counts, name);
    s.(counts := c, fs := AddAll(s.fs, Walk(Join(s.path, m), Renamed(o, n))))
  }

  function WithEntries(o: Options, s: State, es: Entries<bytes>): State {
    s.(counts := CountsAfter(o, s.counts, es), fs := AddAll(s.fs, WalkEntries(s.path, RenamedEntries(o, s.counts, es))))
  }

  lemma {:induction false} RestoreNode(o: Options, s: State, name: Name, n: Node<bytes>, rest: seq<NarEvent>)
    requires Encodable(n) && Ready(o, s) && Apart(o, Renamed(o, n))
    requires var m := o.Naming(s.counts, name).0; Room(o, s.fs, Join(s.path, m)) && (m == [] ==> s.path == [])
    ensures Restore(o, s, Events(name, n) + rest) == Restore(o, WithNode(o, s, name, n), rest)
    decreases n
  {
    hide Restore, HackName, Send, WithNode, WithEntries, Room;
    match n
    case Regular(x, c) =>
      RestoreFirst(o, s, FileEvent(name, x, |c|, c), rest);
      SendLeaf(o, s, FileEvent(name, x, |c|, c), n);
    case Symlink(t) =>
      RestoreFirst(o, s, SymlinkEvent(name, t), rest);
      SendLeaf(o, s, SymlinkEvent(name, t), n);
    case Directory(es) =>
      var s1 := Opened(o, s, name);
      var end := [EndDirectory] + rest;
      assert Events(name, n) + rest == [StartDirectory(name)] + (EntryEvents(es) + end);
      OpenDirectory(o, s, name);
      RestoreFirst(o, s, StartDirectory(name), EntryEvents(es) + end);
      RoomInside(o, s.fs, s1.path, RenamedEntries(o, map[], es));
      RestoreEntries(o, s1, es, end);
      RestoreFirst(o, WithEntries(o, s1, es), EndDirectory, rest);
      CloseDirectory(o, s, name, es);
  }

  lemma SendLeaf(o: Options, s: State, e: NarEvent, n: Node<bytes>)
    requires (e.FileEvent? && n == Regular(e.executable, e.contents)) || (e.SymlinkEvent? && n == Symlink(e.target))
    requires Room(o, s.fs, Join(s.path, o.Naming(s.counts, e.name).0))
    ensures Send(o, s, e) == Some(WithNode(o, s, e.name, n))
  {
    hide HackName;
    AddOne(s.fs, Listed(Join(s.path, o.Naming(s.counts, e.name).0), ThingOf(e)));
  }

  lemma OpenDirectory(o: Options, s: State, name: Name)
    requires Ready(o, s) && Room(o, s.fs, Join(s.path, o.Naming(s.counts, name).0))
    ensures Send(o, s, StartDirectory(name)) == Some(Opened(o, s, name))
  {
    hide HackName;
  }

  /** The state inside a directory that was just made. */
  function Opened(o: Options, s: State, name: Name): State {
    var (m, c) := o.Naming(s.counts, name);
    var p := Join(s.path, m);
    State(p, map[], if o.hack then s.stack + [c] else s.stack, s.fs[p := DirThing])
  }

  lemma AddOne(fs: FileSystem, e: Listed)
    ensures AddAll(fs, [e]) == fs[e.path := e.thing]
  {}

  lemma RoomInside(o: Options, fs: FileSystem, path: Path, es: Entries<bytes>)
    requires Room(o, fs, path)
    ensures RoomFor(o, fs[path := DirThing], path, es)
  {
    forall name
      ensures Room(o, fs[path := DirThing], path + [name])
    {
      assert Pop(path + [name]) == path;
      FoldedUnder(o, path, path + [name]);
      forall p | p in fs
        ensures !(o.Folded(path + [name]) <= o.Folded(p))
      {
        assert !(o.Folded(path) <= o.Folded(p));
      }
    }
  }

  lemma FoldedUnder(o: Options, p: Path, q: Path)
    requires p <= q
    ensures o.Folded(p) <= o.Folded(q)
  {
    assert o.Folded(p) == o.Folded(q)[..|p|];
  }

  /** Back out of a directory: the counters of the directory around it are in force again. */
  lemma CloseDirectory(o: Options, s: State, name: Name, es: Entries<bytes>)
    requires Ready(o, s) && (o.Naming(s.counts, name).0 == [] ==> s.path == [])
    ensures Send(o, WithEntries(o, Opened(o, s, name), es), EndDirectory) == Some(WithNode(o, s, name, Directory(es)))
  {
    hide HackName, AddAll, Walk, WalkEntries, Renamed, RenamedEntries, CountsAfter, Send;
    var (m, c) := o.Naming(s.counts, name);
    var p := Join(s.path, m);
    var w := WalkEntries(p, RenamedEntries(o, map[], es));
    assert Pop(p) == s.path;
    WalkDirectory(o, p, es);
    AddFirst(s.fs, Listed(p, DirThing), w);
    CountsUntouched(o, map[], es);
    LeaveDirectory(o, WithEntries(o, Opened(o, s, name), es), s.stack, c);
  }

  lemma WalkDirectory(o: Options, path: Path, es: Entries<bytes>)
    ensures Walk(path, Renamed(o, Directory(es))) ==
            [Listed(path, DirThing)] + WalkEntries(path, RenamedEntries(o, map[], es))
  {
    hide HackName;
  }

  /** The end of a directory that was entered with the counters `c`. */
  lemma LeaveDirectory(o: Options, s: State, stack: seq<map<bytes, nat>>, c: map<bytes, nat>)
    requires s.stack == if o.hack then stack + [c] else stack
    ensures Send(o, s, EndDirectory) == Some(State(Pop(s.path), if o.hack then c else s.counts, stack, s.fs))
  {
    assert (stack + [c])[..|stack|] == stack;
  }

  lemma AddFirst(fs: FileSystem, e: Listed, list: seq<Listed>)
    ensures AddAll(fs, [e] + list) == AddAll(fs[e.path := e.thing], list)
  {
    assert ([e] + list)[1..] == list;
  }

  lemma {:induction false} CountsUntouched(o: Options, counts: map<bytes, nat>, es: Entries<bytes>)
    ensures !o.hack ==> CountsAfter(o, counts, es) == counts
    decreases es
  {
    if es.Entry? { CountsUntouched(o, o.Naming(counts, es.name).1, es.rest); }
  }

  lemma {:induction false} RestoreEntries(o: Options, s: State, es: Entries<bytes>, rest: seq<NarEvent>)
    requires EncodableEntries(es) && Ready(o, s) && ApartEntries(o, RenamedEntries(o, s.counts, es))
    requires RoomFor(o, s.fs, s.path, RenamedEntries(o, s.counts, es))
    ensures Restore(o, s, EntryEvents(es) + rest) == Restore(o, WithEntries(o, s, es), rest)
    decreases es
  {
    hide Restore, HackName, Room;
    match es
    case Nil =>
      assert EntryEvents(es) + rest == rest;
    case Entry(name, node, more) =>
      var (m, c) := o.Naming(s.counts, name);
      var s1 := WithNode(o, s, name, node);
      assert HasName(RenamedEntries(o, s.counts, es), m) && Room(o, s.fs, s.path + [m]);
      assert EntryEvents(es) + rest == Events(name, node) + (EntryEvents(more) + rest);
      RestoreNode(o, s, name, node, EntryEvents(more) + rest);
      forall x | HasName(RenamedEntries(o, c, more), x)
        ensures Room(o, s1.fs, s.path + [x])
      {
        assert HasName(RenamedEntries(o, s.counts, es), x);
        HasFoldOf(o, RenamedEntries(o, c, more), x);
        RoomBeside(o, s.fs, s.path, m, Renamed(o, node), x);
      }
      RestoreEntries(o, s1, more, rest);
      AddAllAppend(s.fs, Walk(s.path + [m], Renamed(o, node)), WalkEntries(s.path, RenamedEntries(o, c, more)));
  }

  lemma RoomBeside(o: Options, fs: FileSystem, path: Path, m: Name, n: Node<bytes>, x: Name)
    requires Room(o, fs, path + [m]) && Room(o, fs, path + [x]) && o.fold(m) != o.fold(x)
    ensures Room(o, AddAll(fs, Walk(path + [m], n)), path + [x])
  {
    var list := Walk(path + [m], n);
    var fs' := AddAll(fs, list);
    forall i | 0 <= i < |list|
      ensures path + [m] <= list[i].path && o.Folded(list[i].path)[|path|] == o.fold(m)
    {
      WalkUnder(path + [m], n, i);
    }
    assert Pop(path + [x]) == path;
    AddAllHas(fs, list, path);
    forall p | p in fs'
      ensures !(o.Folded(path + [x]) <= o.Folded(p))
    {
      AddAllHas(fs, list, p);
      assert o.Folded(path + [x])[|path|] == o.fold(x);
    }
  }

  // ---------- trees that cannot be restored ----------

  /** The first event of a node creates it. */
  lemma FirstCreates(o: Options, s: State, name: Name, n: Node<bytes>, rest: seq<NarEvent>)
    requires Encodable(n) && o.Taken(s.fs, Join(s.path, o.Naming(s.counts, name).0))
    ensures Restore(o, s, Events(name, n) + rest) == None
  {
    hide Restore, HackName, Send, Events, Options.Taken;
    var e, more := FirstEvent(name, n);
    assert Events(name, n) + rest == [e] + (more + rest);
    SendTaken(o, s, e);
    RestoreFirst(o, s, e, more + rest);
  }

  lemma FirstEvent(name: Name, n: Node<bytes>) returns (e: NarEvent, more: seq<NarEvent>)
    requires Encodable(n)
    ensures Events(name, n) == [e] + more && !e.EndDirectory? && e.name == name
  {
    match n
    case Regular(x, c) => e, more := FileEvent(name, x, |c|, c), [];
    case Symlink(t) => e, more := SymlinkEvent(name, t), [];
    case Directory(es) =>
      e, more := StartDirectory(name), EntryEvents(es) + [EndDirectory];
      assert Events(name, n) == [e] + more;
  }

  lemma SendTaken(o: Options, s: State, e: NarEvent)
    requires !e.EndDirectory? && o.Taken(s.fs, Join(s.path, o.Naming(s.counts, e.name).0))
    ensures Send(o, s, e) == None
  {
    hide HackName;
  }

  /** If the file system does not tell the new names of some directory apart, restoring fails. */
  lemma {:induction false} NodeFails(o: Options, s: State, name: Name, n: Node<bytes>, rest: seq<NarEvent>)
    requires Encodable(n) && Distinct(n) && Ready(o, s) && !Apart(o, Renamed(o, n))
    requires var m := o.Naming(s.counts, name).0; Room(o, s.fs, Join(s.path, m)) && (m == [] ==> s.path == [])
    ensures Restore(o, s, Events(name, n) + rest) == None
    decreases n
  {
    hide Restore, HackName, Send, Room, ValidName;
    var es := n.entries;
    var s1 := Opened(o, s, name);
    var end := [EndDirectory] + rest;
    assert Events(name, n) + rest == [StartDirectory(name)] + (EntryEvents(es) + end);
    OpenDirectory(o, s, name);
    RestoreFirst(o, s, StartDirectory(name), EntryEvents(es) + end);
    RoomInside(o, s.fs, s1.path, RenamedEntries(o, map[], es));
    EntriesFail(o, s1, es, end);
  }

  /** Each new name is taken already or has room. */
  ghost predicate Decided(o: Options, s: State, es: Entries<bytes>) {
    forall x | HasName(es, x) :: Room(o, s.fs, s.path + [x]) || o.Taken(s.fs, s.path + [x])
  }

  /** And not all is well. */
  lemma {:induction false} EntriesFail(o: Options, s: State, es: Entries<bytes>, rest: seq<NarEvent>)
    requires EncodableEntries(es) && DistinctEntries(es) && Ready(o, s)
    requires var renamed := RenamedEntries(o, s.counts, es);
      Decided(o, s, renamed) && (!ApartEntries(o, renamed) || !RoomFor(o, s.fs, s.path, renamed))
    ensures Restore(o, s, EntryEvents(es) + rest) == None
    decreases es
  {
    hide Restore, HackName, Room, ValidName, RoomFor, AddAll, Walk, Options.Taken;
    var renamed := RenamedEntries(o, s.counts, es);
    if es.Nil? {
      NoRoomNeeded(o, s.fs, s.path);
    } else {
      var (m, c) := o.Naming(s.counts, es.name);
      NamingValid(o, s.counts, es.name);
      ValidNotEmpty(m);
      var more := EntryEvents(es.rest) + rest;
      assert EntryEvents(es) + rest == Events(es.name, es.node) + more;
      assert HasName(renamed, m);
      if o.Taken(s.fs, s.path + [m]) {
        FirstCreates(o, s, es.name, es.node, more);
      } else if !Apart(o, Renamed(o, es.node)) {
        NodeFails(o, s, es.name, es.node, more);
      } else {
        RestoreNode(o, s, es.name, es.node, more);
        MoreFail(o, s, es, renamed);
        EntriesFail(o, WithNode(o, s, es.name, es.node), es.rest, rest);
      }
    }
  }

  lemma NoRoomNeeded(o: Options, fs: FileSystem, path: Path)
    ensures RoomFor(o, fs, path, Nil)
  {}

  lemma ValidNotEmpty(name: Name)
    requires ValidName(name)
    ensures name != []
  {}

  /** After a first entry that went well, something among the others will not. */
  lemma MoreFail(o: Options, s: State, es: Entries<bytes>, renamed: Entries<bytes>)
    requires es.Entry? && DistinctEntries(es) && renamed == RenamedEntries(o, s.counts, es)
    requires Decided(o, s, renamed) && (!ApartEntries(o, renamed) || !RoomFor(o, s.fs, s.path, renamed))
    requires Room(o, s.fs, s.path + [renamed.name]) && renamed.name != [] && Apart(o, renamed.node)
    requires ValidName(renamed.name)
    ensures var s1 := WithNode(o, s, es.name, es.node);
      Decided(o, s1, renamed.rest) && (!ApartEntries(o, renamed.rest) || !RoomFor(o, s1.fs, s.path, renamed.rest))
  {
    hide HackName, Room, ValidName, Walk, Options.Taken;
    var m, w := renamed.name, Walk(s.path + [renamed.name], renamed.node);
    var fs1 := WithNode(o, s, es.name, es.node).fs;
    assert fs1 == AddAll(s.fs, w);
    forall x | HasName(renamed.rest, x)
      ensures Room(o, fs1, s.path + [x]) || o.Taken(fs1, s.path + [x])
      ensures Room(o, fs1, s.path + [x]) ==> o.fold(x) != o.fold(m) && Room(o, s.fs, s.path + [x])
    {
      assert HasName(renamed, x);
      TakenAfter(o, s.fs, s.path, m, renamed.node, x);
      if o.fold(x) != o.fold(m) && Room(o, s.fs, s.path + [x]) { RoomBeside(o, s.fs, s.path, m, renamed.node, x); }
    }
    if HasFold(o, renamed.rest, o.fold(m)) { var x := NameWithFold(o, renamed.rest, o.fold(m)); }
    assert RoomFor(o, fs1, s.path, renamed.rest) ==> !HasFold(o, renamed.rest, o.fold(m));
    assert RoomFor(o, fs1, s.path, renamed.rest) ==> RoomFor(o, s.fs, s.path, renamed);
  }

  /** What is taken stays so, and so does the place of the entry itself. */
  lemma TakenAfter(o: Options, fs: FileSystem, path: Path, m: Name, n: Node<bytes>, x: Name)
    ensures var fs1 := AddAll(fs, Walk(path + [m], n));
      o.fold(x) == o.fold(m) || o.Taken(fs, path + [x]) ==> o.Taken(fs1, path + [x]) && !Room(o, fs1, path + [x])
  {
    var list := Walk(path + [m], n);
    var fs1 := AddAll(fs, list);
    WalkUnder(path + [m], n, 0);
    AddAllHas(fs, list, path + [m]);
    if o.Taken(fs, path + [x]) {
      var p :| p in fs && o.Folded(p) == o.Folded(path + [x]);
      AddAllHas(fs, list, p);
      assert p in fs1;
    }
    if o.fold(x) == o.fold(m) { assert o.Folded(path + [m]) == o.Folded(path + [x]) && path + [m] in fs1; }
  }

  // ---------- names that differ ----------

  function NamesOf(es: Entries<bytes>): seq<Name> {
    if es.Nil? then [] else [es.name] + NamesOf(es.rest)
  }

  lemma {:induction false} RenamedNames(o: Options, counts: map<bytes, nat>, es: Entries<bytes>)
    requires o.hack
    ensures NamesOf(RenamedEntries(o, counts, es)) == HackNames(o.lower, counts, NamesOf(es))
    decreases es
  {
    if es.Entry? { RenamedNames(o, o.Naming(counts, es.name).1, es.rest); }
  }

  lemma {:induction false} NamesAre(es: Entries<bytes>, x: Name)
    ensures HasName(es, x) <==> x in NamesOf(es)
    decreases es
  {
    if es.Entry? { NamesAre(es.rest, x); }
  }

  /** Every name is valid, and every node of the directory has distinct names. */
  predicate SoundBelow(es: Entries<bytes>)
    decreases es
  {
    es.Entry? ==> ValidName(es.name) && Distinct(es.node) && SoundBelow(es.rest)
  }

  lemma {:induction false} DistinctIs(es: Entries<bytes>)
    ensures DistinctEntries(es) <==> SoundBelow(es) && AllDifferent(NamesOf(es))
    decreases es
  {
    hide ValidName;
    if es.Entry? {
      DistinctIs(es.rest);
      NamesAre(es.rest, es.name);
      DifferentFirst(es.name, NamesOf(es.rest));
    }
  }

  lemma DifferentFirst(x: Name, rest: seq<Name>)
    ensures AllDifferent([x] + rest) <==> x !in rest && AllDifferent(rest)
  {
    var names := [x] + rest;
    assert forall i | 0 <= i < |rest| :: rest[i] == names[i + 1];
    if AllDifferent(names) {
      forall i | 0 <= i < |rest| ensures rest[i] != x { assert names[0] != names[i + 1]; }
      forall i, j | 0 <= i < j < |rest| ensures rest[i] != rest[j] { assert names[i + 1] != names[j + 1]; }
    }
    if x !in rest && AllDifferent(rest) {
      forall i, j | 0 <= i < j < |names| ensures names[i] != names[j] {
        assert i > 0 ==> rest[i - 1] != rest[j - 1];
        assert rest[j - 1] in rest;
      }
    }
  }

  /** With the hack on, no directory has a name that is what a collision will be called. */
  ghost predicate Restorable(o: Options, n: Node<bytes>)
    decreases n
  {
    o.hack && n.Directory? ==> Unlike(o.lower, NamesOf(n.entries)) && RestorableBelow(o, n.entries)
  }

  ghost predicate RestorableBelow(o: Options, es: Entries<bytes>)
    decreases es
  {
    es.Entry? ==> Restorable(o, es.node) && RestorableBelow(o, es.rest)
  }

  /** The new names are distinct in every directory exactly then. */
  lemma {:induction false} RenamedDistinctIff(o: Options, n: Node<bytes>)
    requires Distinct(n)
    ensures Distinct(Renamed(o, n)) <==> Restorable(o, n)
    decreases n, 1
  {
    hide ValidName, Unlike, HackNames;
    if n.Directory? {
      var es := n.entries;
      var renamed := RenamedEntries(o, map[], es);
      DistinctIs(es);
      DistinctIs(renamed);
      if o.hack {
        RenamedNames(o, map[], es);
        HackedDifferentIff(o.lower, NamesOf(es));
        SoundBelowIff(o, map[], es);
      } else {
        NotRenamed(o, map[], es);
      }
    }
  }

  lemma {:induction false} SoundBelowIff(o: Options, counts: map<bytes, nat>, es: Entries<bytes>)
    requires SoundBelow(es)
    ensures SoundBelow(RenamedEntries(o, counts, es)) <==> RestorableBelow(o, es)
    decreases es, 0
  {
    hide ValidName, HackName;
    if es.Entry? {
      NamingValid(o, counts, es.name);
      RenamedDistinctIff(o, es.node);
      SoundBelowIff(o, o.Naming(counts, es.name).1, es.rest);
    }
  }

  lemma {:induction false} NotRenamed(o: Options, counts: map<bytes, nat>, es: Entries<bytes>)
    requires !o.hack
    ensures RenamedEntries(o, counts, es) == es
    decreases es
  {
    if es.Entry? {
      NotRenamedNode(o, es.node);
      NotRenamed(o, counts, es.rest);
    }
  }

  lemma {:induction false} NotRenamedNode(o: Options, n: Node<bytes>)
    requires !o.hack
    ensures Renamed(o, n) == n
    decreases n
  {
    if n.Directory? { NotRenamed(o, map[], n.entries); }
  }

  // ---------- names that differ in more than case ----------

  /** In every directory, every two names differ in more than case. */
  ghost predicate CaseDistinct(lower: Name -> bytes, n: Node<bytes>)
    decreases n
  {
    n.Directory? ==> CaseDistinctNames(lower, NamesOf(n.entries)) && CaseDistinctBelow(lower, n.entries)
  }

  ghost predicate CaseDistinctBelow(lower: Name -> bytes, es: Entries<bytes>)
    decreases es
  {
    es.Entry? ==> CaseDistinct(lower, es.node) && CaseDistinctBelow(lower, es.rest)
  }

  /** In every directory, the names do not clash with each other's markers. */
  ghost predicate UnclashedTree(lower: Name -> bytes, n: Node<bytes>)
    decreases n
  {
    n.Directory? ==> Unclashed(lower, NamesOf(n.entries)) && UnclashedBelow(lower, n.entries)
  }

  ghost predicate UnclashedBelow(lower: Name -> bytes, es: Entries<bytes>)
    decreases es
  {
    es.Entry? ==> UnclashedTree(lower, es.node) && UnclashedBelow(lower, es.rest)
  }

  /** On a case-insensitive file system, nothing in a restored tree collides exactly then; each
      directory has its own counters. */
  lemma {:induction false} RestoredCaseDistinctIff(o: Options, n: Node<bytes>)
    requires o.hack && KeepsMarkers(o.lower)
    ensures CaseDistinct(o.lower, Renamed(o, n)) <==> UnclashedTree(o.lower, n)
    decreases n, 1
  {
    hide KeepsMarkers, HackNames, Unclashed, CaseDistinctNames;
    if n.Directory? {
      RenamedNames(o, map[], n.entries);
      HackedDistinctIff(o.lower, NamesOf(n.entries));
      RestoredBelowIff(o, map[], n.entries);
    }
  }

  lemma {:induction false} RestoredBelowIff(o: Options, counts: map<bytes, nat>, es: Entries<bytes>)
    requires o.hack && KeepsMarkers(o.lower)
    ensures CaseDistinctBelow(o.lower, RenamedEntries(o, counts, es)) <==> UnclashedBelow(o.lower, es)
    decreases es, 0
  {
    hide KeepsMarkers, HackName, CaseDistinct;
    if es.Entry? {
      RestoredCaseDistinctIff(o, es.node);
      RestoredBelowIff(o, o.Naming(counts, es.name).1, es.rest);
    }
  }

  /** No name contains the suffix in any case. */
  ghost predicate Unmarked(lower: Name -> bytes, n: Node<bytes>)
    decreases n
  {
    n.Directory? ==> UnmarkedEntries(lower, n.entries)
  }

  ghost predicate UnmarkedEntries(lower: Name -> bytes, es: Entries<bytes>)
    decreases es
  {
    es.Entry? ==> !Contains(lower(es.name)) && Unmarked(lower, es.node) && UnmarkedEntries(lower, es.rest)
  }

  lemma {:induction false} UnmarkedNames(lower: Name -> bytes, es: Entries<bytes>, i: nat)
    requires UnmarkedEntries(lower, es) && i < |NamesOf(es)|
    ensures !Contains(lower(NamesOf(es)[i]))
    decreases es
  {
    hide Contains;
    if i > 0 { UnmarkedNames(lower, es.rest, i - 1); }
  }

  /** In particular, if no name contains the suffix in any case. */
  lemma {:induction false} UnmarkedTree(lower: Name -> bytes, n: Node<bytes>)
    requires Unmarked(lower, n)
    ensures UnclashedTree(lower, n)
    decreases n, 1
  {
    hide Contains, Unclashed;
    if n.Directory? {
      var names := NamesOf(n.entries);
      forall k | 0 <= k < |names| ensures !Contains(lower(names[k])) { UnmarkedNames(lower, n.entries, k); }
      UnmarkedUnclashed(lower, names);
      UnmarkedBelow(lower, n.entries);
    }
  }

  lemma {:induction false} UnmarkedBelow(lower: Name -> bytes, es: Entries<bytes>)
    requires UnmarkedEntries(lower, es)
    ensures UnclashedBelow(lower, es)
    decreases es, 0
  {
    hide Contains, UnclashedTree;
    if es.Entry? {
      UnmarkedTree(lower, es.node);
      UnmarkedBelow(lower, es.rest);
    }
  }

  // ---------- restoring, then dumping ----------

  /** With the hack on, every name collides with an earlier one or does not contain the suffix. */
  ghost predicate Recovers(o: Options, n: Node<bytes>)
    decreases n
  {
    n.Directory? ==> RecoversEntries(o, map[], n.entries)
  }

  ghost predicate RecoversEntries(o: Options, counts: map<bytes, nat>, es: Entries<bytes>)
    decreases es
  {
    es.Entry? ==>
      && (o.hack ==> o.lower(es.name) in counts || !Contains(es.name))
      && Recovers(o, es.node) && RecoversEntries(o, o.Naming(counts, es.name).1, es.rest)
  }

  /** In particular, names without the suffix. */
  ghost predicate Clean(n: Node<bytes>)
    decreases n
  {
    n.Directory? ==> CleanEntries(n.entries)
  }

  ghost predicate CleanEntries(es: Entries<bytes>)
    decreases es
  {
    es.Entry? ==> !Contains(es.name) && Clean(es.node) && CleanEntries(es.rest)
  }

  lemma {:induction false} CleanRecovers(o: Options, n: Node<bytes>)
    requires !o.hack || Clean(n)
    ensures Recovers(o, n)
    decreases n
  {
    if n.Directory? { CleanRecoversEntries(o, map[], n.entries); }
  }

  lemma {:induction false} CleanRecoversEntries(o: Options, counts: map<bytes, nat>, es: Entries<bytes>)
    requires !o.hack || CleanEntries(es)
    ensures RecoversEntries(o, counts, es)
    decreases es
  {
    hide Contains, HackName;
    if es.Entry? {
      CleanRecovers(o, es.node);
      CleanRecoversEntries(o, o.Naming(counts, es.name).1, es.rest);
    }
  }

  /** A restored tree shows the names of the original exactly if it recovers. */
  lemma {:induction false} ShownRenamed(o: Options, n: Node<bytes>)
    ensures ShownTree(o.hack, Renamed(o, n)) == n <==> Recovers(o, n)
    decreases n
  {
    if n.Directory? { ShownRenamedEntries(o, map[], n.entries); }
  }

  lemma {:induction false} ShownRenamedEntries(o: Options, counts: map<bytes, nat>, es: Entries<bytes>)
    ensures ShownEntries(o.hack, RenamedEntries(o, counts, es)) == es <==> RecoversEntries(o, counts, es)
    decreases es
  {
    hide HackName, Strip, Contains;
    match es
    case Nil =>
    case Entry(name, node, rest) =>
      StripHacked(o.lower, counts, name);
      ShownRenamed(o, node);
      ShownRenamedEntries(o, o.Naming(counts, name).1, rest);
  }

  lemma {:induction false} HasShownName(hack: bool, es: Entries<bytes>, name: Name)
    requires HasName(es, name)
    ensures HasName(ShownEntries(hack, es), Shown(hack, name))
    decreases es
  {
    if es.name != name { HasShownName(hack, es.rest, name); }
  }

  /** A name stays valid when it is marked. */
  lemma NamingValid(o: Options, counts: map<bytes, nat>, name: Name)
    requires ValidName(name)
    ensures ValidName(o.Naming(counts, name).0)
  {
    var l := o.lower(name);
    if o.hack && l in counts {
      var m := Marker(counts[l] + 1);
      var d := Decimal(counts[l] + 1);
      assert forall i | 0 <= i < 15 :: HACK[i] != '/';
      assert forall i | 0 <= i < |m| :: m[i] == if i < 15 then HACK[i] as int % 128 else d[i - 15];
    }
  }

  lemma {:induction false} RenamedDistinct(o: Options, n: Node<bytes>)
    requires Recovers(o, n) && Distinct(n)
    ensures Distinct(Renamed(o, n))
    decreases n
  {
    if n.Directory? { RenamedDistinctEntries(o, map[], n.entries); }
  }

  lemma {:induction false} RenamedDistinctEntries(o: Options, counts: map<bytes, nat>, es: Entries<bytes>)
    requires RecoversEntries(o, counts, es) && DistinctEntries(es)
    ensures DistinctEntries(RenamedEntries(o, counts, es))
    decreases es
  {
    hide HackName, Strip, Contains, ValidName;
    match es
    case Nil =>
    case Entry(name, node, rest) =>
      var (m, c) := o.Naming(counts, name);
      NamingValid(o, counts, name);
      StripHacked(o.lower, counts, name);
      RenamedDistinct(o, node);
      RenamedDistinctEntries(o, c, rest);
      ShownRenamedEntries(o, c, rest);
      if HasName(RenamedEntries(o, c, rest), m) { HasShownName(o.hack, RenamedEntries(o, c, rest), m); }
  }

  const Start := State([], map[], [], map[])

  /** Restoring the events of a tree makes its renamed form; and it succeeds exactly if the file
      system tells the new names of every directory apart. */
  lemma RestoreTree(o: Options, t: Node<bytes>)
    requires Encodable(t) && Distinct(t)
    ensures var r := Restore(o, Start, Events([], t));
      && (r.Some? <==> Apart(o, Renamed(o, t)))
      && (r.Some? ==> r.value.fs == AddAll(map[], Walk([], Renamed(o, t))))
  {
    hide AddAll, Walk, Events, Renamed, Apart, Distinct;
    assert Events([], t) + [] == Events([], t);
    if Apart(o, Renamed(o, t)) { RestoreNode(o, Start, [], t, []); } else { NodeFails(o, Start, [], t, []); }
  }

  // ---------- three kinds of file systems ----------

  /** The file system compares names byte by byte. */
  ghost predicate ByBytes(o: Options) { forall x :: o.fold(x) == x }

  lemma {:induction false} ApartByBytes(o: Options, n: Node<bytes>)
    requires ByBytes(o)
    ensures Apart(o, n) <==> Distinct(n)
    decreases n
  {
    if n.Directory? { ApartAmong(o, n.entries); }
  }

  lemma {:induction false} ApartAmong(o: Options, es: Entries<bytes>)
    requires ByBytes(o)
    ensures ApartEntries(o, es) <==> DistinctEntries(es)
    decreases es
  {
    hide ValidName;
    if es.Entry? {
      ApartByBytes(o, es.node);
      ApartAmong(o, es.rest);
      FoldByBytes(o, es.rest, es.name);
    }
  }

  lemma {:induction false} FoldByBytes(o: Options, es: Entries<bytes>, x: Name)
    requires ByBytes(o)
    ensures HasFold(o, es, o.fold(x)) <==> HasName(es, x)
    decreases es
  {
    if es.Entry? { FoldByBytes(o, es.rest, x); }
  }

  /** There, restoring succeeds exactly if no name is what a collision will be called. */
  lemma RestoreByBytes(o: Options, t: Node<bytes>)
    requires Encodable(t) && Distinct(t) && ByBytes(o)
    ensures Restore(o, Start, Events([], t)).Some? <==> Restorable(o, t)
  {
    hide Events, Renamed, Apart, Distinct, Restorable, Restore;
    RestoreTree(o, t);
    ApartByBytes(o, Renamed(o, t));
    RenamedDistinctIff(o, t);
  }

  /** Every name is valid. */
  predicate AllValid(n: Node<bytes>)
    decreases n
  {
    n.Directory? ==> AllValidEntries(n.entries)
  }

  predicate AllValidEntries(es: Entries<bytes>)
    decreases es
  {
    es.Entry? ==> ValidName(es.name) && AllValid(es.node) && AllValidEntries(es.rest)
  }

  lemma {:induction false} FoldsAre(o: Options, es: Entries<bytes>, l: bytes)
    ensures HasFold(o, es, l) <==> exists i :: 0 <= i < |NamesOf(es)| && o.fold(NamesOf(es)[i]) == l
    decreases es
  {
    if es.Entry? {
      FoldsAre(o, es.rest, l);
      var names, rest := NamesOf(es), NamesOf(es.rest);
      assert forall i | 0 <= i < |rest| :: names[i + 1] == rest[i];
      if HasFold(o, es.rest, l) {
        var i :| 0 <= i < |rest| && o.fold(rest[i]) == l;
        assert o.fold(names[i + 1]) == l;
      }
      if o.fold(es.name) == l { assert o.fold(names[0]) == l; }
    }
  }

  lemma {:induction false} ApartIsCaseDistinct(o: Options, n: Node<bytes>)
    ensures Apart(o, n) <==> AllValid(n) && CaseDistinct(o.fold, n)
    decreases n
  {
    if n.Directory? { ApartAreCaseDistinct(o, n.entries); }
  }

  lemma {:induction false} ApartAreCaseDistinct(o: Options, es: Entries<bytes>)
    ensures ApartEntries(o, es) <==>
            AllValidEntries(es) && CaseDistinctNames(o.fold, NamesOf(es)) && CaseDistinctBelow(o.fold, es)
    decreases es
  {
    hide ValidName, CaseDistinctNames;
    if es.Entry? {
      ApartIsCaseDistinct(o, es.node);
      ApartAreCaseDistinct(o, es.rest);
      FoldsAre(o, es.rest, o.fold(es.name));
      CaseDistinctFirst(o.fold, es.name, NamesOf(es.rest));
    } else {
      CaseDistinctNone(o.fold);
    }
  }

  lemma CaseDistinctNone(fold: Name -> bytes)
    ensures CaseDistinctNames(fold, [])
  {}

  lemma CaseDistinctFirst(fold: Name -> bytes, x: Name, rest: seq<Name>)
    ensures CaseDistinctNames(fold, [x] + rest) <==>
            CaseDistinctNames(fold, rest) && forall i | 0 <= i < |rest| :: fold(rest[i]) != fold(x)
  {
    var names := [x] + rest;
    assert forall i | 0 <= i < |rest| :: rest[i] == names[i + 1];
    if CaseDistinctNames(fold, names) {
      forall i | 0 <= i < |rest| ensures fold(rest[i]) != fold(x) { assert fold(names[0]) != fold(names[i + 1]); }
      forall i, j | 0 <= i < j < |rest| ensures fold(rest[i]) != fold(rest[j]) {
        assert fold(names[i + 1]) != fold(names[j + 1]);
      }
    }
    if CaseDistinctNames(fold, rest) && forall i | 0 <= i < |rest| :: fold(rest[i]) != fold(x) {
      forall i, j | 0 <= i < j < |names| ensures fold(names[i]) != fold(names[j]) {
        assert i > 0 ==> fold(rest[i - 1]) != fold(rest[j - 1]);
        assert names[j] == rest[j - 1];
      }
    }
  }

  lemma {:induction false} RenamedValid(o: Options, n: Node<bytes>)
    requires Distinct(n)
    ensures AllValid(Renamed(o, n))
    decreases n
  {
    if n.Directory? { RenamedAllValid(o, map[], n.entries); }
  }

  lemma {:induction false} RenamedAllValid(o: Options, counts: map<bytes, nat>, es: Entries<bytes>)
    requires DistinctEntries(es)
    ensures AllValidEntries(RenamedEntries(o, counts, es))
    decreases es
  {
    hide ValidName, HackName;
    if es.Entry? {
      NamingValid(o, counts, es.name);
      RenamedValid(o, es.node);
      RenamedAllValid(o, o.Naming(counts, es.name).1, es.rest);
    }
  }

  /** Without the hack, restoring succeeds exactly if the file system tells the names of every
      directory apart. */
  lemma RestorePlainly(o: Options, t: Node<bytes>)
    requires Encodable(t) && Distinct(t) && !o.hack
    ensures Restore(o, Start, Events([], t)).Some? <==> CaseDistinct(o.fold, t)
  {
    hide Events, Apart, Distinct, CaseDistinct, Restore;
    RestoreTree(o, t);
    NotRenamedNode(o, t);
    RenamedValid(o, t);
    ApartIsCaseDistinct(o, t);
  }

  /** The case hack on a file system that ignores case. */
  function OnCase(lower: Name -> bytes): Options { Options(true, lower, lower) }

  /** There, restoring succeeds exactly if the names of no directory clash with its markers. */
  lemma RestoreIgnoringCase(lower: Name -> bytes, t: Node<bytes>)
    requires Encodable(t) && Distinct(t) && KeepsMarkers(lower)
    ensures Restore(OnCase(lower), Start, Events([], t)).Some? <==> UnclashedTree(lower, t)
  {
    hide Events, Apart, Distinct, CaseDistinct, UnclashedTree, Restore, KeepsMarkers, Renamed;
    var o := OnCase(lower);
    RestoreTree(o, t);
    RenamedValid(o, t);
    ApartIsCaseDistinct(o, Renamed(o, t));
    RestoredCaseDistinctIff(o, t);
  }

  // ---------- the walks of what was restored ----------

  /** The strings of an entry, as it is shown, have lengths that can be padded. */
  predicate FitsShown(hack: bool, e: Listed) {
    && (e.path != [] ==> Fits(Shown(hack, e.path[|e.path| - 1])))
    && (e.thing.FileThing? ==> Fits(e.thing.contents)) && (e.thing.LinkThing? ==> Fits(e.thing.target))
  }

  lemma {:induction false} WalkFits(hack: bool, path: Path, n: Node<bytes>)
    requires path != [] ==> Fits(Shown(hack, path[|path| - 1]))
    ensures Encodable(ShownTree(hack, n)) <==> forall e | e in Walk(path, n) :: FitsShown(hack, e)
    decreases n
  {
    hide Shown;
    if n.Directory? {
      WalkEntriesFit(hack, path, n.entries);
      assert FitsShown(hack, Listed(path, DirThing));
      assert forall e :: e in Walk(path, n) <==> e == Listed(path, DirThing) || e in WalkEntries(path, n.entries);
    } else {
      assert Walk(path, n)[0] in Walk(path, n);
    }
  }

  lemma {:induction false} WalkEntriesFit(hack: bool, path: Path, es: Entries<bytes>)
    ensures EncodableEntries(ShownEntries(hack, es)) <==> forall e | e in WalkEntries(path, es) :: FitsShown(hack, e)
    decreases es
  {
    hide Shown;
    if es.Entry? {
      var p := path + [es.name];
      assert p[|p| - 1] == es.name;
      WalkEntriesFit(hack, path, es.rest);
      WalkUnder(p, es.node, 0);
      var a, b := Walk(p, es.node), WalkEntries(path, es.rest);
      assert a[0] in a + b && FitsShown(hack, a[0]) ==> Fits(Shown(hack, es.name));
      if Fits(Shown(hack, es.name)) { WalkFits(hack, p, es.node); }
      assert forall e :: e in WalkEntries(path, es) <==> e in a || e in b;
    }
  }

  /** Two trees with the same entries. */
  lemma SameEntries(fs: FileSystem, a: seq<Listed>, b: seq<Listed>)
    requires Lists(fs, a) && Lists(fs, b)
    ensures forall e :: e in a <==> e in b
  {
    forall e
      ensures e in a <==> e in b
    {
      assert e in a ==> Listed(e.path, fs[e.path]) in b;
      assert e in b ==> Listed(e.path, fs[e.path]) in a;
    }
  }

  /** The names that a restored tree shows are no longer than the original ones, and as long
      exactly if they are the same. */
  lemma {:induction false} ShownTotal(o: Options, n: Node<bytes>)
    ensures Total(ShownTree(o.hack, Renamed(o, n))) <= Total(n)
    ensures Total(ShownTree(o.hack, Renamed(o, n))) == Total(n) <==> Recovers(o, n)
    decreases n
  {
    if n.Directory? { ShownTotalAmong(o, map[], n.entries); }
  }

  lemma {:induction false} ShownTotalAmong(o: Options, counts: map<bytes, nat>, es: Entries<bytes>)
    ensures TotalAmong(ShownEntries(o.hack, RenamedEntries(o, counts, es))) <= TotalAmong(es)
    ensures TotalAmong(ShownEntries(o.hack, RenamedEntries(o, counts, es))) == TotalAmong(es) <==>
            RecoversEntries(o, counts, es)
    decreases es
  {
    hide HackName, Strip, Contains;
    if es.Entry? {
      ShownShorter(o, counts, es.name);
      ShownTotal(o, es.node);
      ShownTotalAmong(o, o.Naming(counts, es.name).1, es.rest);
    }
  }

  lemma ShownShorter(o: Options, counts: map<bytes, nat>, name: Name)
    ensures var s := Shown(o.hack, o.Naming(counts, name).0);
      |s| <= |name| && (|s| == |name| <==> (o.hack ==> o.lower(name) in counts || !Contains(name)))
  {
    hide Marker, Contains, Strip;
    var l := o.lower(name);
    if l in counts { StripMarked(name, counts[l] + 1); }
    StripClean(name);
  }

  lemma {:induction false} ShownEncodable(o: Options, n: Node<bytes>)
    requires Encodable(n)
    ensures Encodable(ShownTree(o.hack, Renamed(o, n)))
    decreases n
  {
    if n.Directory? { ShownEncodableEntries(o, map[], n.entries); }
  }

  lemma {:induction false} ShownEncodableEntries(o: Options, counts: map<bytes, nat>, es: Entries<bytes>)
    requires EncodableEntries(es)
    ensures EncodableEntries(ShownEntries(o.hack, RenamedEntries(o, counts, es)))
    decreases es
  {
    hide HackName, Strip, Contains;
    if es.Entry? {
      ShownShorter(o, counts, es.name);
      ShownEncodable(o, es.node);
      ShownEncodableEntries(o, o.Naming(counts, es.name).1, es.rest);
    }
  }

  /** Trees with the same events are the same tree. */
  lemma EventsInjective(s: Node<bytes>, t: Node<bytes>)
    requires Encodable(s) && Encodable(t) && Events([], s) == Events([], t)
    ensures s == t
  {
    hide Encode, Events, EventLog.Log, EventLog.Bracketed;
    EventLog.LogIsEncode(s);
    EventLog.LogIsEncode(t);
    Unambiguous.EncodeInjective(s, t);
  }

  /** What a walk of a restored tree finds has the same entries, and its names are as long. */
  lemma FoundTree(o: Options, t: Node<bytes>, fs: FileSystem, m: Node<bytes>)
    requires Encodable(t) && Distinct(Renamed(o, t)) && fs == AddAll(map[], Walk([], Renamed(o, t)))
    requires Finds(o.hack, fs, m)
    ensures Encodable(ShownTree(o.hack, m)) && forall e :: e in Walk([], m) <==> e in Walk([], Renamed(o, t))
    ensures Total(ShownTree(o.hack, m)) == Total(ShownTree(o.hack, Renamed(o, t)))
  {
    hide Walk, Renamed, ShownTree, Distinct, Ordered, FitsShown, Total;
    var n := Renamed(o, t);
    WalkDiffers([], n);
    WalkDiffers([], m);
    AddAllLists(Walk([], n));
    SameEntries(fs, Walk([], m), Walk([], n));
    ShownEncodable(o, t);
    WalkFits(o.hack, [], n);
    WalkFits(o.hack, [], m);
    SameSum(o.hack, Walk([], m), Walk([], n));
    SumOfWalk(o.hack, [], m);
    SumOfWalk(o.hack, [], n);
    RootWeightless(o.hack, m);
    RootWeightless(o.hack, n);
  }

  lemma RootWeightless(hack: bool, n: Node<bytes>)
    ensures Walk([], n) != [] && Weight(hack, Walk([], n)[0]) == 0
  {
    WalkUnder([], n, 0);
  }

  /** If the names are recovered, there is only one walk. */
  lemma OnlyWalk(o: Options, t: Node<bytes>, fs: FileSystem, m: Node<bytes>)
    requires Encodable(t) && Distinct(t) && InOrder(t) && Recovers(o, t)
    requires Distinct(Renamed(o, t)) && fs == AddAll(map[], Walk([], Renamed(o, t))) && Finds(o.hack, fs, m)
    ensures Walk([], m) == Walk([], Renamed(o, t))
  {
    hide Walk, Renamed, ShownTree, Distinct, Ordered, InOrder, ShownPath, PathLess, Total;
    var n := Renamed(o, t);
    FoundTree(o, t, fs, m);
    ShownRenamed(o, t);
    WalkSorted(o.hack, n);
    var a, b := Walk([], m), Walk([], n);
    forall i, j | 0 <= i < |a| && 0 <= j < |a| && ShownPath(o.hack, a[i].path) == ShownPath(o.hack, a[j].path)
      ensures a[i].path == a[j].path
    {
      assert a[i] in b && a[j] in b;
      SortedSeparate(o.hack, b, a[i], a[j]);
    }
    NoTies(o.hack, [], m);
    WalkSorted(o.hack, m);
    SortedUnique(o.hack, a, b);
  }

  lemma SortedSeparate(hack: bool, list: seq<Listed>, d: Listed, e: Listed)
    requires Sorted(hack, list) && d in list && e in list && ShownPath(hack, d.path) == ShownPath(hack, e.path)
    ensures d == e
  {
    hide ShownPath, PathLess;
    var i :| 0 <= i < |list| && list[i] == d;
    var j :| 0 <= j < |list| && list[j] == e;
    if i < j { PathLessAsymmetric(ShownPath(hack, d.path), ShownPath(hack, e.path)); }
    if j < i { PathLessAsymmetric(ShownPath(hack, e.path), ShownPath(hack, d.path)); }
  }

  /** A walk of what was restored dumps to the events of the tree exactly if every name collides or
      does not contain the suffix. */
  lemma WalkDumps(o: Options, t: Node<bytes>, fs: FileSystem, list: seq<Listed>)
    requires Encodable(t) && Distinct(t) && InOrder(t)
    requires Distinct(Renamed(o, t)) && fs == AddAll(map[], Walk([], Renamed(o, t))) && IsWalk(o.hack, fs, list)
    ensures Balanced(list, [], 0)
    ensures Dump(o.hack, list, [], 0) == Events([], t) <==> Recovers(o, t)
  {
    hide Walk, Renamed, Dump, Balanced, Recovers, Events, ShownTree, Distinct, InOrder, Ordered, Total;
    var n := Renamed(o, t);
    var m :| Finds(o.hack, fs, m) && list == Walk([], m);
    FoundTree(o, t, fs, m);
    DumpIsEvents(o.hack, m);
    if Recovers(o, t) {
      OnlyWalk(o, t, fs, m);
      ShownRenamed(o, t);
      DumpIsEvents(o.hack, n);
    } else {
      ShownTotal(o, t);
      if Events([], ShownTree(o.hack, m)) == Events([], t) { EventsInjective(ShownTree(o.hack, m), t); }
    }
  }

  /** Restoring succeeds, and every walk of what was made dumps to the events of the tree. */
  ghost predicate RoundTrips(o: Options, t: Node<bytes>)
    requires Encodable(t)
  {
    var r := Restore(o, Start, Events([], t));
    && r.Some?
    && (forall list | IsWalk(o.hack, r.value.fs, list) ::
          Balanced(list, [], 0) && Dump(o.hack, list, [], 0) == Events([], t))
  }

  /** The round trip is exact: it succeeds if and only if the file system tells the new names apart,
      and every name collides with an earlier one or does not contain the suffix. */
  lemma RestoreThenDumpIff(o: Options, t: Node<bytes>)
    requires Encodable(t) && Distinct(t) && InOrder(t)
    ensures RoundTrips(o, t) <==> Recovers(o, t) && Apart(o, Renamed(o, t))
    ensures Apart(o, Renamed(o, t)) ==>
      var r := Restore(o, Start, Events([], t));
      r.Some? && IsWalk(o.hack, r.value.fs, Walk([], SortTree(o.hack, Renamed(o, t))))
  {
    hide Walk, Renamed, Restore, Dump, Balanced, Recovers, Events, Distinct, InOrder, SortTree, Finds, IsWalk, Apart;
    var r := Restore(o, Start, Events([], t));
    RestoreTree(o, t);
    if r.Some? {
      var fs := r.value.fs;
      var sorted := Walk([], SortTree(o.hack, Renamed(o, t)));
      ApartIsDistinct(o, Renamed(o, t));
      AWalk(o, t, fs);
      WalkDumps(o, t, fs, sorted);
      forall list | IsWalk(o.hack, fs, list)
        ensures Balanced(list, [], 0) && (Dump(o.hack, list, [], 0) == Events([], t) <==> Recovers(o, t))
      {
        WalkDumps(o, t, fs, list);
      }
    }
  }

  /** Without the hack, or where no name contains the suffix, this leaves what the file system asks. */
  lemma RestoreThenDump(o: Options, t: Node<bytes>)
    requires Encodable(t) && Distinct(t) && InOrder(t) && (!o.hack || Clean(t))
    ensures RoundTrips(o, t) <==> Apart(o, Renamed(o, t))
  {
    hide Renamed, Recovers, Distinct, InOrder, Apart, RoundTrips, Clean;
    CleanRecovers(o, t);
    RestoreThenDumpIff(o, t);
  }

  /** On a file system that compares bytes, the condition on the names alone is exact. */
  lemma RoundTripByBytes(o: Options, t: Node<bytes>)
    requires Encodable(t) && Distinct(t) && InOrder(t) && ByBytes(o)
    ensures RoundTrips(o, t) <==> Recovers(o, t)
  {
    hide Renamed, Recovers, Distinct, InOrder, Apart, RoundTrips;
    RestoreThenDumpIff(o, t);
    ApartByBytes(o, Renamed(o, t));
    if Recovers(o, t) { RenamedDistinct(o, t); }
  }

  /** With the hack on one that ignores case, the names must not clash with the markers either. */
  lemma RoundTripIgnoringCase(lower: Name -> bytes, t: Node<bytes>)
    requires Encodable(t) && Distinct(t) && InOrder(t) && KeepsMarkers(lower)
    ensures RoundTrips(OnCase(lower), t) <==> Recovers(OnCase(lower), t) && UnclashedTree(lower, t)
  {
    hide Renamed, Recovers, Distinct, InOrder, Apart, RoundTrips, KeepsMarkers, UnclashedTree, CaseDistinct;
    var o := OnCase(lower);
    RestoreThenDumpIff(o, t);
    RenamedValid(o, t);
    ApartIsCaseDistinct(o, Renamed(o, t));
    RestoredCaseDistinctIff(o, t);
  }

  lemma AWalk(o: Options, t: Node<bytes>, fs: FileSystem)
    requires Distinct(Renamed(o, t)) && fs == AddAll(map[], Walk([], Renamed(o, t)))
    ensures IsWalk(o.hack, fs, Walk([], SortTree(o.hack, Renamed(o, t))))
  {
    hide Walk, Renamed, Distinct, SortTree, Finds;
    WalkExists(o.hack, Renamed(o, t));
  }

  // ---------- the code ----------

  class NarRestorer {
    const o: Options
    var path: Path
    var entries: map<bytes, nat>
    var dirStack: seq<map<bytes, nat>>
    /** The file system, and what is being created in the background. */
    var fs: FileSystem
    var job: Option<Listed>
    /** How often the background task will still make the restorer wait. */
    var waits: nat

    /** The state when the job is done, or none if it fails. */
    ghost function Value(): Option<State>
      reads this
    {
      if job.None? then Some(State(path, entries, dirStack, fs))
      else
        var made := Create(o, fs, job.value.path, job.value.thing);
        if made.None? then None else Some(State(path, entries, dirStack, made.value))
    }

    constructor (o: Options, waits: nat)
      ensures Value() == Some(Start) && job.None? && this.o == o && this.waits == waits
    {
      this.o, path, entries, dirStack, fs, job := o, [], map[], [], map[], None;
      this.waits := waits;
    }

    /** `hack_name`, if it is to be used. */
    method Rename(name: Name) returns (n: Name)
      modifies this`entries
      ensures (n, entries) == o.Naming(old(entries), name)
    {
      if !o.hack {
        return name;
      }
      var lower := o.lower(name);
      if lower in entries {
        var idx := entries[lower] + 1;
        n := name + Marker(idx);
        entries := entries[lower := idx];
      } else {
        entries := entries[lower := 0];
        n := name;
      }
    }

    /** `start_send`. */
    method StartSend(e: NarEvent)
      requires job.None?
      modifies this
      ensures Value() == Send(o, old(Value()).value, e) && waits == old(waits)
    {
      if e.EndDirectory? {
        if o.hack {
          var n := |dirStack|;
          if n > 0 {
            entries, dirStack := dirStack[n - 1], dirStack[..n - 1];
          } else {
            entries := map[];
          }
        }
        path := Pop(path);
        return;
      }
      var name := Rename(e.name);
      var p := Join(path, name);
      if e.StartDirectory? {
        if o.hack {
          entries, dirStack := map[], dirStack + [entries];
        }
        path := p;
      }
      job := Some(Listed(p, ThingOf(e)));
    }

    /** `poll_ready`: wait for the job. */
    method PollReady() returns (r: Poll<Result<()>>)
      modifies this
      ensures Spent(old(waits), waits, r.Pending?)
      ensures r != Poll.Ready(Err) ==> Value() == old(Value())
      ensures r == Poll.Ready(Err) ==> old(Value()).None?
      ensures r.Ready? && r.value.Ok? ==> job.None?
    {
      if job.Some? {
        if waits > 0 {
          if * {
            waits := waits - 1;
            return Pending;
          }
        }
        var made := Create(o, fs, job.value.path, job.value.thing);
        if made.None? {
          return Poll.Ready(Err);
        }
        fs, job := made.value, None;
      }
      return Poll.Ready(Ok(()));
    }
  }

  /** A whole run of the restorer, within `polls` polls; with more polls than there are waits and
      events it ends or fails. */
  method RestoreAll(o: Options, events: seq<NarEvent>, waits: nat, polls: nat)
      returns (fs: FileSystem, ended: bool, failed: bool)
    ensures failed ==> Restore(o, Start, events).None?
    ensures ended ==> Restore(o, Start, events).Some? && Restore(o, Start, events).value.fs == fs
    ensures polls > waits + |events| ==> ended || failed
  {
    hide Send;
    var r := new NarRestorer(o, waits);
    var todo, n := events, polls;
    while n > 0
      invariant fresh(r) && r.o == o
      invariant polls - n + r.waits + |todo| <= waits + |events|
      invariant Restore(o, Start, events) == if r.Value().None? then None else Restore(o, r.Value().value, todo)
      decreases n
    {
      n := n - 1;
      var p := r.PollReady();
      if p.Ready? {
        if p.value.Err? {
          return map[], false, true;
        }
        if todo == [] {
          return r.fs, true, false;
        }
        r.StartSend(todo[0]);
        todo := todo[1..];
      }
    }
    return map[], false, false;
  }

  /** A whole run of the dumper; with more polls than there are waits and events it ends. */
  method DumpAll(hack: bool, list: seq<Listed>, waits: nat, polls: nat) returns (out: seq<NarEvent>, ended: bool)
    requires Balanced(list, [], 0)
    ensures out <= Dump(hack, list, [], 0)
    ensures ended ==> out == Dump(hack, list, [], 0)
    ensures polls > waits + |Dump(hack, list, [], 0)| ==> ended
  {
    hide Balanced, Dump;
    var d := new NarDumper(hack, list, waits);
    out, ended := [], false;
    var n := polls;
    while n > 0
      invariant fresh(d) && fresh(d.state) && d.Valid() && out + d.ToCome() == Dump(hack, list, [], 0)
      invariant polls - n + d.state.waits <= waits + |out|
      decreases n
    {
      n := n - 1;
      var p := d.PollNext();
      if p.Ready? {
        if p.value.None? {
          return out, true;
        }
        out := out + [p.value.value];
      }
    }
  }
}
