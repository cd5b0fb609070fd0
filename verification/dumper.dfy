/** `NarDumper`: the flat list of a walk becomes bracketed events, with nothing but the current
    directory, a level and one entry of look-ahead. */
module Dumpers {
  import opened Wire
  import opened Streams
  import opened Grammar
  import opened CaseHack
  import opened FileTree

  function Pop(dir: Path): Path { if dir == [] then [] else dir[..|dir| - 1] }

  /** File sizes that the format can hold. */
  predicate Holdable(e: Listed) { e.thing.FileThing? ==> Fits(e.thing.contents) }

  /** The event for an entry. */
  function Show(hack: bool, e: Listed, level: nat): NarEvent
    requires Holdable(e)
  {
    var name := if level > 0 && e.path != [] then Shown(hack, e.path[|e.path| - 1]) else [];
    match e.thing
    case FileThing(x, c) => FileEvent(name, x, |c|, c)
    case LinkThing(t) => SymlinkEvent(name, t)
    case DirThing => StartDirectory(name)
  }

  /** The state after an entry: the current directory and the level. */
  function Enter(e: Listed, dir: Path, level: nat): (Path, nat) {
    if e.thing.DirThing? then (e.path, level + 1) else (dir, level)
  }

  /** The level never drops below zero, and comes back to zero with the last entry. */
  predicate Balanced(list: seq<Listed>, dir: Path, level: nat)
    decreases |list|, level
  {
    if list != [] && dir <= list[0].path then
      Holdable(list[0]) && Balanced(list[1..], Enter(list[0], dir, level).0, Enter(list[0], dir, level).1)
    else if level > 0 then Balanced(list, Pop(dir), level - 1)
    else list == []
  }

  function Dump(hack: bool, list: seq<Listed>, dir: Path, level: nat): seq<NarEvent>
    requires Balanced(list, dir, level)
    decreases |list|, level
  {
    if list != [] && dir <= list[0].path then
      [Show(hack, list[0], level)] + Dump(hack, list[1..], Enter(list[0], dir, level).0, Enter(list[0], dir, level).1)
    else if level > 0 then [EndDirectory] + Dump(hack, list, Pop(dir), level - 1)
    else []
  }

  // ---------- the walk of a tree ----------

  /** The list goes on outside of `path`. */
  predicate Leaves(path: Path, rest: seq<Listed>) { rest != [] ==> !(path <= rest[0].path) }

  lemma DumpFirst(hack: bool, e: Listed, rest: seq<Listed>, dir: Path, level: nat)
    requires dir <= e.path && Holdable(e) && Balanced(rest, Enter(e, dir, level).0, Enter(e, dir, level).1)
    ensures Balanced([e] + rest, dir, level)
    ensures Dump(hack, [e] + rest, dir, level) ==
            [Show(hack, e, level)] + Dump(hack, rest, Enter(e, dir, level).0, Enter(e, dir, level).1)
  {
    hide Show, Enter;
    assert ([e] + rest)[1..] == rest && ([e] + rest)[0] == e;
  }

  lemma DumpEnd(hack: bool, rest: seq<Listed>, dir: Path, level: nat)
    requires level > 0 && Leaves(dir, rest) && Balanced(rest, Pop(dir), level - 1)
    ensures Balanced(rest, dir, level)
    ensures Dump(hack, rest, dir, level) == [EndDirectory] + Dump(hack, rest, Pop(dir), level - 1)
  {
    hide Show, Enter;
  }

  lemma {:induction false} DumpNode(hack: bool, path: Path, n: Node<bytes>, rest: seq<Listed>, level: nat)
    requires Distinct(n) && Encodable(ShownTree(hack, n)) && level == |path| && Leaves(path, rest)
      && Balanced(rest, Pop(path), level)
    ensures Balanced(Walk(path, n) + rest, Pop(path), level)
    ensures var name := if path == [] then [] else Shown(hack, path[level - 1]);
      Dump(hack, Walk(path, n) + rest, Pop(path), level) ==
      Events(name, ShownTree(hack, n)) + Dump(hack, rest, Pop(path), level)
    decreases n
  {
    hide Dump, Balanced, Shown;
    match n
    case Regular(x, c) => DumpFirst(hack, Listed(path, FileThing(x, c)), rest, Pop(path), level);
    case Symlink(t) => DumpFirst(hack, Listed(path, LinkThing(t)), rest, Pop(path), level);
    case Directory(es) =>
      var e := Listed(path, DirThing);
      DumpEnd(hack, rest, path, level + 1);
      DumpEntries(hack, path, es, rest, level + 1);
      DumpFirst(hack, e, WalkEntries(path, es) + rest, Pop(path), level);
      assert Walk(path, n) + rest == [e] + (WalkEntries(path, es) + rest);
      var name := if path == [] then [] else Shown(hack, path[level - 1]);
      var inner, last := EntryEvents(ShownEntries(hack, es)), Dump(hack, rest, Pop(path), level);
      Regroup([StartDirectory(name)], inner, [EndDirectory], last);
  }

  lemma {:induction false} DumpEntries(hack: bool, path: Path, es: Entries<bytes>, rest: seq<Listed>, level: nat)
    requires DistinctEntries(es) && EncodableEntries(ShownEntries(hack, es)) && level == |path| + 1
      && Leaves(path, rest) && Balanced(rest, path, level)
    ensures Balanced(WalkEntries(path, es) + rest, path, level)
    ensures Dump(hack, WalkEntries(path, es) + rest, path, level) ==
            EntryEvents(ShownEntries(hack, es)) + Dump(hack, rest, path, level)
    decreases es
  {
    hide Dump, Balanced, Shown, ValidName;
    match es
    case Nil =>
      assert WalkEntries(path, es) + rest == rest;
    case Entry(name, node, more) =>
      DumpEntries(hack, path, more, rest, level);
      var p, w := path + [name], WalkEntries(path, more) + rest;
      LeavesEntry(path, name, more, rest);
      assert Pop(p) == path && p[level - 1] == name;
      DumpNode(hack, p, node, w, level);
      assert WalkEntries(path, es) + rest == Walk(p, node) + w;
      var a, b, d := Events(Shown(hack, name), ShownTree(hack, node)), EntryEvents(ShownEntries(hack, more)),
        Dump(hack, rest, path, level);
      Regroup(a, b, [], d);
      assert [] + d == d && a + b + [] == a + b;
  }

  lemma Regroup(a: seq<NarEvent>, b: seq<NarEvent>, c: seq<NarEvent>, d: seq<NarEvent>)
    ensures a + (b + (c + d)) == a + b + c + d
  {}

  /** Behind an entry, the list goes on with the next one, or outside of the directory. */
  lemma LeavesEntry(path: Path, name: Name, more: Entries<bytes>, rest: seq<Listed>)
    requires !HasName(more, name) && Leaves(path, rest)
    ensures Leaves(path + [name], WalkEntries(path, more) + rest)
  {
    var w := WalkEntries(path, more) + rest;
    if more.Entry? {
      WalkUnder(path + [more.name], more.node, 0);
      assert w[0].path == path + [more.name];
      assert w[0].path[|path|] == more.name;
    } else {
      assert w == rest;
    }
  }

  /** The events of a walk are those of the tree that its names show. */
  lemma DumpIsEvents(hack: bool, n: Node<bytes>)
    requires Distinct(n) && Encodable(ShownTree(hack, n))
    ensures Balanced(Walk([], n), [], 0)
    ensures Dump(hack, Walk([], n), [], 0) == Events([], ShownTree(hack, n))
  {
    hide Walk, Shown, ShownTree;
    DumpNode(hack, [], n, [], 0);
    assert Walk([], n) + [] == Walk([], n);
  }

  // ---------- the code ----------

  const CHUNK_SIZE: nat := 25

  /** `State`: the walk, fetched chunk by chunk on another thread, for which the dumper has to wait
      up to `waits` times. */
  class WalkState {
    var buf: seq<Listed>
    var walker: seq<Listed>
    var remain: bool
    var waits: nat

    ghost predicate Valid()
      reads this
    {
      !remain ==> walker == []
    }

    ghost function Left(): seq<Listed>
      reads this
    {
      buf + walker
    }

    constructor (list: seq<Listed>, waits: nat)
      ensures Valid() && Left() == list && this.waits == waits
    {
      buf, walker, remain, this.waits := [], list, true, waits;
    }

    method NextChunk()
      requires Valid()
      modifies this`buf, this`walker, this`remain
      ensures Valid() && Left() == old(Left()) && (remain ==> buf != [])
      ensures |buf| == old(|buf|) + Min(CHUNK_SIZE, old(|walker|)) && (remain <==> old(|walker|) >= CHUNK_SIZE)
    {
      var i := 0;
      while i < CHUNK_SIZE
        invariant 0 <= i <= CHUNK_SIZE && |buf| == old(|buf|) + i && Left() == old(Left())
      {
        if walker == [] {
          remain := false;
          return;
        }
        buf, walker := buf + [walker[0]], walker[1..];
        i := i + 1;
      }
      remain := true;
    }

    method PollNext() returns (r: Poll<Option<Listed>>)
      requires Valid()
      modifies this
      ensures Valid() && Spent(old(waits), waits, r.Pending?)
      ensures r.Pending? ==> Left() == old(Left())
      ensures r.Ready? && r.value.None? ==> Left() == old(Left()) == []
      ensures r.Ready? && r.value.Some? ==> old(Left()) == [r.value.value] + Left()
    {
      if buf == [] && remain {
        NextChunk();
        if waits > 0 {
          if * {
            waits := waits - 1;
            return Pending;
          }
        }
      }
      if buf == [] {
        return Ready(None);
      }
      r := Ready(Some(buf[0]));
      buf := buf[1..];
    }
  }

  class NarDumper {
    const state: WalkState
    var next: Option<Listed>
    var level: nat
    var dir: Path
    const hack: bool

    ghost function Left(): seq<Listed>
      reads this, state
    {
      (if next.Some? then [next.value] else []) + state.Left()
    }

    ghost predicate Valid()
      reads this, state
    {
      state.Valid() && Balanced(Left(), dir, level)
    }

    /** The events that are still to come. */
    ghost function ToCome(): seq<NarEvent>
      requires Valid()
      reads this, state
    {
      Dump(hack, Left(), dir, level)
    }

    constructor (hack: bool, list: seq<Listed>, waits: nat)
      requires Balanced(list, [], 0)
      ensures Valid() && this.hack == hack && ToCome() == Dump(hack, list, [], 0) && fresh(state)
      ensures state.waits == waits
    {
      this.hack, next, level, dir := hack, None, 0, [];
      state := new WalkState(list, waits);
      new;
      assert Left() == list;
    }

    /** The event for the entry at hand. */
    method Emit(entry: Listed) returns (e: NarEvent)
      requires Valid() && next == Some(entry) && dir <= entry.path
      modifies this
      ensures Valid() && old(ToCome()) == [e] + ToCome()
    {
      hide Show;
      assert Left()[0] == entry && Left()[1..] == state.Left();
      ghost var list := Left();
      next := None;
      e := Show(hack, entry, level);
      if entry.thing.DirThing? {
        dir, level := entry.path, level + 1;
      }
      assert Left() == list[1..];
    }

    /** The end of the current directory. */
    method Leave()
      requires Valid() && Leaves(dir, Left()) && (Left() == [] ==> level > 0)
      modifies this`dir, this`level
      ensures Valid() && old(ToCome()) == [EndDirectory] + ToCome()
    {
      hide Show;
      dir, level := Pop(dir), level - 1;
    }

    lemma NothingToCome()
      requires Valid() && Left() == [] && level == 0
      ensures ToCome() == []
    {}

    /** `poll_next`: the next of the events that are to come. */
    method PollNext() returns (r: Poll<Option<NarEvent>>)
      requires Valid()
      modifies this, state
      ensures Valid() && Spent(old(state.waits), state.waits, r.Pending?)
      ensures r.Pending? ==> ToCome() == old(ToCome())
      ensures r.Ready? && r.value.None? ==> ToCome() == old(ToCome()) == []
      ensures r.Ready? && r.value.Some? ==> old(ToCome()) == [r.value.value] + ToCome()
    {
      hide Show, Dump, Balanced;
      while true
        invariant Valid() && ToCome() == old(ToCome()) && state.waits <= old(state.waits)
        decreases next.None?
      {
        ghost var list := Left();
        if next.Some? {
          var entry := next.value;
          assert list[0] == entry;
          if !(dir <= entry.path) {
            Leave();
            return Ready(Some(EndDirectory));
          }
          var e := Emit(entry);
          return Ready(Some(e));
        }
        var s := state.PollNext();
        if s.Pending? {
          assert Left() == list;
          return Pending;
        }
        if s.value.None? {
          assert Left() == list == [];
          if level > 0 {
            Leave();
            return Ready(Some(EndDirectory));
          }
          NothingToCome();
          return Ready(None);
        }
        next := s.value;
        assert Left() == list;
      }
    }
  }
}
