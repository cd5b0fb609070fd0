/** What each event stands for on the wire when only the number of open directories is known,
    and the proof that a flat run of events comes to the recursive encoding. */
module EventLog {
  import opened Wire
  import opened Grammar

  /** What closes a node behind its own parenthesis: inside a directory, the end of the entry. */
  function Tail(level: nat): bytes { if level > 0 then TokPar() else [] }

  /** What introduces a node: the magic word, or the start of an entry. */
  function Head(level: nat, name: bytes): bytes
    requires Fits(name)
  {
    if level == 0 then TokRoot() else TokEntry() + Pack(name).Print() + TokNode()
  }

  function NextLevel(level: nat, e: NarEvent): nat {
    match e
    case StartDirectory(_) => level + 1
    case EndDirectory => if level > 0 then level - 1 else 0
    case _ => level
  }

  /** The strings of the event have lengths that can be padded. */
  predicate Sendable(e: NarEvent) {
    match e
    case FileEvent(name, _, _, _) => Fits(name)
    case SymlinkEvent(name, target) => Fits(name) && Fits(target)
    case StartDirectory(name) => Fits(name)
    case EndDirectory => true
  }

  /** The bytes of one event. */
  function Sent(level: nat, e: NarEvent): bytes
    requires Sendable(e)
  {
    match e
    case FileEvent(name, x, size, contents) =>
      Head(level, name) + TokRegular(x) + LE64(size) + contents + Zeros(CalcPadding(size)) + (TokPar() + Tail(level))
    case SymlinkEvent(name, target) =>
      Head(level, name) + TokSym() + Pack(target).Print() + (TokPar() + Tail(level))
    case StartDirectory(name) => Head(level, name) + TokDir()
    case EndDirectory => TokPar() + Tail(NextLevel(level, e))
  }

  /** Every directory end has its start, and the strings fit. */
  predicate Bracketed(level: nat, events: seq<NarEvent>)
    decreases |events|
  {
    events == [] ||
    (Sendable(events[0]) && (events[0].EndDirectory? ==> level > 0)
      && Bracketed(NextLevel(level, events[0]), events[1..]))
  }

  function Log(level: nat, events: seq<NarEvent>): bytes
    requires Bracketed(level, events)
    decreases |events|
  {
    if events == [] then [] else Sent(level, events[0]) + Log(NextLevel(level, events[0]), events[1..])
  }

  lemma LogFirst(level: nat, e: NarEvent, rest: seq<NarEvent>)
    requires Sendable(e) && (e.EndDirectory? ==> level > 0) && Bracketed(NextLevel(level, e), rest)
    ensures Bracketed(level, [e] + rest)
    ensures Log(level, [e] + rest) == Sent(level, e) + Log(NextLevel(level, e), rest)
  {
    hide Sent;
    assert ([e] + rest)[1..] == rest;
  }

  lemma LogNothing(level: nat)
    ensures Bracketed(level, []) && Log(level, []) == []
  {}

  /** Sending the first of the events that are left. */
  lemma LogStep(level: nat, events: seq<NarEvent>, done: bytes)
    requires Bracketed(level, events) && events != []
    ensures Sendable(events[0]) && (events[0].EndDirectory? ==> level > 0)
    ensures Bracketed(NextLevel(level, events[0]), events[1..])
    ensures done + Sent(level, events[0]) + Log(NextLevel(level, events[0]), events[1..]) == done + Log(level, events)
  {
    hide Sent, Sendable;
  }

  lemma Regroup(h: bytes, t: bytes, l: bytes, c: bytes, z: bytes, p: bytes, q: bytes, k: bytes)
    ensures h + t + l + c + z + (p + q) + k == h + (t + (l + ((c + z) + (p + (q + k)))))
    ensures h + t + (l + (c + z)) + (p + q) + k == h + (t + (l + ((c + z) + (p + (q + k)))))
  {
    var a := h + (t + (l + ((c + z) + (p + (q + k)))));
    assert a == (h + t) + (l + ((c + z) + (p + (q + k))));
    assert a == (h + t + l) + ((c + z) + (p + (q + k)));
    assert (c + z) + (p + (q + k)) == c + (z + ((p + q) + k));
  }

  lemma SentFile(level: nat, name: bytes, x: bool, c: bytes, k: bytes)
    requires Fits(name) && Fits(c)
    ensures Sent(level, FileEvent(name, x, |c|, c)) + k ==
            Head(level, name) + Body(Regular(x, Pack(c)), Tail(level) + k)
  {
    hide TokPar, TokRegular, Head, LE64, Tail;
    Regroup(Head(level, name), TokRegular(x), LE64(|c|), c, Zeros(CalcPadding(|c|)), TokPar(), Tail(level), k);
  }

  lemma SentLink(level: nat, name: bytes, t: bytes, k: bytes)
    requires Fits(name) && Fits(t)
    ensures Sent(level, SymlinkEvent(name, t)) + k == Head(level, name) + Body(Symlink(Pack(t)), Tail(level) + k)
  {
    hide TokPar, TokSym, Head, LE64, Tail;
    Regroup(Head(level, name), TokSym(), LE64(|t|), t, Zeros(CalcPadding(|t|)), TokPar(), Tail(level), k);
  }

  lemma SentDirectory(level: nat, name: bytes, es: Entries<Blob>, k: bytes)
    requires Fits(name)
    ensures Sent(level, StartDirectory(name)) + Items(es, Sent(level + 1, EndDirectory) + k) ==
            Head(level, name) + Body(Directory(es), Tail(level) + k)
  {
    hide TokPar, TokDir, Head, Tail, Items;
    Assoc(TokPar(), Tail(level), k);
    Assoc(Head(level, name), TokDir(), Items(es, TokPar() + (Tail(level) + k)));
  }

  lemma SentEntry(level: nat, name: bytes, node: Node<Blob>, rest: Entries<Blob>, k: bytes)
    requires level > 0 && Fits(name)
    ensures Head(level, name) + Body(node, Tail(level) + Items(rest, k)) == Items(Entry(Pack(name), node, rest), k)
  {
    hide TokPar, TokEntry, TokNode, LE64, Body;
    var b, s := Pack(name), Body(node, TokPar() + Items(rest, k));
    assert TokEntry() + (LE64(b.len) + b.raw) + TokNode() + s == TokEntry() + (LE64(b.len) + (b.raw + (TokNode() + s)));
  }

  lemma {:induction false} LogNode(name: bytes, n: Node<bytes>, level: nat, rest: seq<NarEvent>)
    requires Encodable(n) && Fits(name) && Bracketed(level, rest)
    ensures Bracketed(level, Events(name, n) + rest)
    ensures Log(level, Events(name, n) + rest) == Head(level, name) + Body(Concrete(n), Tail(level) + Log(level, rest))
    decreases n
  {
    hide Sent, Log, Bracketed, Body, Items, Pack, Head, Tail;
    match n
    case Regular(x, c) =>
      LogFirst(level, FileEvent(name, x, |c|, c), rest);
      SentFile(level, name, x, c, Log(level, rest));
    case Symlink(t) =>
      LogFirst(level, SymlinkEvent(name, t), rest);
      SentLink(level, name, t, Log(level, rest));
    case Directory(es) =>
      var end := [EndDirectory] + rest;
      LogFirst(level + 1, EndDirectory, rest);
      LogEntries(es, level + 1, end);
      LogFirst(level, StartDirectory(name), EntryEvents(es) + end);
      assert Events(name, n) + rest == [StartDirectory(name)] + (EntryEvents(es) + end);
      SentDirectory(level, name, ConcreteEntries(es), Log(level, rest));
  }

  lemma {:induction false} LogEntries(es: Entries<bytes>, level: nat, rest: seq<NarEvent>)
    requires EncodableEntries(es) && level > 0 && Bracketed(level, rest)
    ensures Bracketed(level, EntryEvents(es) + rest)
    ensures Log(level, EntryEvents(es) + rest) == Items(ConcreteEntries(es), Log(level, rest))
    decreases es
  {
    hide Sent, Log, Bracketed, Body, Pack, Head, Tail, TokEntry, TokNode, LE64;
    match es
    case Nil =>
      assert EntryEvents(es) + rest == rest;
    case Entry(name, node, more) =>
      LogEntries(more, level, rest);
      LogNode(name, node, level, EntryEvents(more) + rest);
      assert EntryEvents(es) + rest == Events(name, node) + (EntryEvents(more) + rest);
      SentEntry(level, name, Concrete(node), ConcreteEntries(more), Log(level, rest));
  }

  /** Sending the events of a tree, one by one, comes to its encoding. */
  lemma LogIsEncode(t: Node<bytes>)
    requires Encodable(t)
    ensures Bracketed(0, Events([], t)) && Log(0, Events([], t)) == Encode(t)
  {
    hide PrintRoot, Body, TokRoot, Events;
    var root := PrintRoot(Concrete(t));
    LogNode([], t, 0, []);
    assert Events([], t) + [] == Events([], t);
    assert Tail(0) + Log(0, []) == [];
    PrintRootIsBody(Concrete(t), []);
    assert root + [] == root;
  }

  lemma Skip8(a: bytes, b: bytes)
    requires |a| % 8 == 0
    ensures |a + b| % 8 == |b| % 8
  {}

  lemma StringAligned(t: bytes, b: Blob, k: bytes)
    requires |t| % 8 == 0 && b.Ok()
    ensures |t + (LE64(b.len) + (b.raw + k))| % 8 == |k| % 8
  {
    hide LE64, CalcAligned;
    Skip8(t, LE64(b.len) + (b.raw + k));
    Skip8(LE64(b.len), b.raw + k);
    Skip8(b.raw, k);
  }

  lemma {:induction false} BodyAligned(n: Node<Blob>, k: bytes)
    requires WellFormed(n, false)
    ensures |Body(n, k)| % 8 == |k| % 8
    decreases n
  {
    hide TokPar, TokDir, TokSym, TokFile, TokFileE, TokEntry, TokNode, TokRoot, LE64, CalcAligned;
    TokenLengths();
    Skip8(TokPar(), k);
    match n
    case Regular(x, c) => StringAligned(TokRegular(x), c, TokPar() + k);
    case Symlink(t) => StringAligned(TokSym(), t, TokPar() + k);
    case Directory(es) =>
      ItemsAligned(es, TokPar() + k);
      Skip8(TokDir(), Items(es, TokPar() + k));
  }

  lemma {:induction false} ItemsAligned(es: Entries<Blob>, k: bytes)
    requires WellFormedEntries(es, false)
    ensures |Items(es, k)| % 8 == |k| % 8
    decreases es
  {
    hide TokPar, TokDir, TokSym, TokFile, TokFileE, TokEntry, TokNode, TokRoot, LE64, CalcAligned, Body;
    TokenLengths();
    if es.Entry? {
      var i := Items(es.rest, k);
      ItemsAligned(es.rest, k);
      Skip8(TokPar(), i);
      BodyAligned(es.node, TokPar() + i);
      Skip8(TokNode(), Body(es.node, TokPar() + i));
      StringAligned(TokEntry(), es.name, TokNode() + Body(es.node, TokPar() + i));
    }
  }

  /** Every derivation, and so every encoding, is a whole number of words. */
  lemma PrintAligned(n: Node<Blob>)
    requires WellFormed(n, false)
    ensures |PrintRoot(n)| % 8 == 0
  {
    hide TokPar, TokDir, TokSym, TokFile, TokFileE, TokEntry, TokNode, TokRoot, PrintRoot, Body;
    TokenLengths();
    PrintRootIsBody(n, []);
    BodyAligned(n, []);
    Skip8(TokRoot(), Body(n, []));
    assert PrintRoot(n) + [] == PrintRoot(n);
  }

  lemma EncodeAligned(t: Node<bytes>)
    requires Encodable(t)
    ensures |Encode(t)| % 8 == 0
  {
    hide PrintRoot;
    Weaken(Concrete(t));
    PrintAligned(Concrete(t));
  }
}
