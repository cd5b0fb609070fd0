/** The bare counter of the machine is the number of open directories, at every byte of a NAR. */
module Levels {
  import opened Wire
  import opened Grammar
  import opened Choice
  import opened Machine
  import opened Chunking

  // ---------- the number of open directories ----------

  /** After `c` bytes of the body of a node: a directory is open from the end of its type word to
      the end of its closing parenthesis. */
  function OpenIn(n: Node<Blob>, c: nat): nat
    decreases n
  {
    if n.Directory? && c >= |TokDir()| then 1 + OpenAmong(n.entries, c - |TokDir()|) else 0
  }

  /** After `c` bytes of the entries of a directory, the directory itself not counted. */
  function OpenAmong(es: Entries<Blob>, c: nat): nat
    decreases es
  {
    match es
    case Nil => 0
    case Entry(name, node, rest) =>
      var from := |EntryHead(name)|;
      var to := from + |Body(node, [])|;
      if c < from then 0
      else if c < to then OpenIn(node, c - from)
      else if c < to + |TokPar()| then 0
      else OpenAmong(rest, c - to - |TokPar()|)
  }

  /** What precedes the body of an entry. */
  function EntryHead(name: Blob): bytes { TokEntry() + name.Print() + TokNode() }

  /** After `c` bytes of a whole NAR. */
  function OpenDirectories(n: Node<Blob>, c: nat): nat {
    if c < |TokRoot()| then 0 else OpenIn(n, c - |TokRoot()|)
  }

  // ---------- driving over a part ----------

  /** All of `s` is used, and leads from one state and level to another. */
  ghost predicate Leads(st: State, level: nat, s: bytes, st': State, level': nat) {
    Valid(st) && Drive(true, st, level, s) == Stop(st', level', |s|)
  }

  /** After `c` bytes of `s` the machine goes on, at level `k`. */
  ghost predicate LevelAt(st: State, level: nat, s: bytes, c: nat, k: nat) {
    Valid(st) && c <= |s| && var r := Drive(true, st, level, s[..c]); r.Stop? && !r.state.Eof? && r.level == k
  }

  lemma LeadsOn(st: State, level: nat, a: bytes, st1: State, level1: nat, b: bytes, st2: State, level2: nat)
    requires Leads(st, level, a, st1, level1) && !st1.Eof? && Leads(st1, level1, b, st2, level2)
    ensures Leads(st, level, a + b, st2, level2)
  {
    hide Drive, Valid;
    DriveChunk(true, st, level, a, b);
  }

  /** A cut behind the first part. */
  lemma Behind(st: State, level: nat, a: bytes, st1: State, level1: nat, b: bytes, c: nat, k: nat)
    requires Leads(st, level, a, st1, level1) && !st1.Eof? && LevelAt(st1, level1, b, c, k)
    ensures LevelAt(st, level, a + b, |a| + c, k)
  {
    hide Drive, Valid;
    DriveChunk(true, st, level, a, b[..c]);
    assert (a + b)[..|a| + c] == a + b[..c];
  }

  /** A cut inside the first part. */
  lemma Inside(st: State, level: nat, a: bytes, b: bytes, c: nat, k: nat)
    requires LevelAt(st, level, a, c, k)
    ensures LevelAt(st, level, a + b, c, k)
  {
    hide Drive, Valid;
    assert (a + b)[..c] == a[..c];
  }

  // ---------- tokens, choices and strings ----------

  /** One iteration that uses up the token, and then the state that it leads to. */
  lemma LeadsStep(st: State, level: nat, s: bytes, st': State, level': nat)
    requires Valid(st) && Iter(true, st, level, s) == Continue(st', level', |s|)
    ensures Valid(st') && (Settled(st') && !st'.Eof? ==> Leads(st, level, s, st', level'))
    ensures st'.Eof? ==> Leads(st, level, s, st', level')
    ensures st'.ReadDir? ==> Leads(st, level, s, Select(DirEntries, []), level' + 1)
    ensures st'.FinishReadEntry? ==> Leads(st, level, s, Close<bytes>(level').0, Close<bytes>(level').1)
  {
    hide Drive, Iter, Word, Alternatives;
    DriveStep(true, st, level, s);
    assert s[|s|..] == [];
    Idle(st', level');
    if st'.ReadDir? || st'.FinishReadEntry? { PassThrough(st', level'); }
  }

  /** The two states that need no byte to go on. */
  lemma PassThrough(st: State, level: nat)
    requires st.ReadDir? || st.FinishReadEntry?
    ensures st.ReadDir? ==> Drive(true, st, level, []) == Stop(Select(DirEntries, []), level + 1, 0)
    ensures st.FinishReadEntry? ==>
      Drive(true, st, level, []) == Stop(Close<bytes>(level).0, Close<bytes>(level).1, 0)
  {
    hide Drive, Word, Alternatives, Look, FromLE64, CalcAligned;
    DriveStep(true, st, level, []);
    var r := Iter(true, st, level, []);
    var nothing: bytes := [];
    assert nothing[0..] == nothing;
    Idle(r.state, r.level);
  }

  /** Nothing to read: nothing happens. */
  lemma Idle(st: State, level: nat)
    requires Valid(st)
    ensures Settled(st) || st.Eof? ==> Drive(true, st, level, []) == Stop(st, level, 0)
  {
    hide Drive, Word, Alternatives, Look, FromLE64, CalcAligned;
    DriveStep(true, st, level, []);
    match st
    case Expect(t, read) =>
    case Select(o, at) =>
      AlternativesArePrefixFree<bytes>(o);
      assert at + [] == at;
      LookOpen(Alternatives<bytes>(o), at, at);
    case Length(w, got) => assert got + [] == got;
    case _ =>
  }

  /** The machine breaks off inside a token: no change of level. */
  lemma BreakLevel(st: State, level: nat, s: bytes, c: nat)
    requires Valid(st) && c <= |s| && Iter(true, st, level, s[..c]).Break?
    requires var r := Iter(true, st, level, s[..c]); !r.state.Eof? && r.level == level
    ensures LevelAt(st, level, s, c, level)
  {
    hide Drive, Iter, Valid;
    DriveStep(true, st, level, s[..c]);
  }

  lemma TokenLeads(t: Token, level: nat)
    ensures After<bytes>(t, level, []).Eof? || Settled(After<bytes>(t, level, []))
    ensures Leads(Expect(t, 0), level, Word(t), After(t, level, []), level)
  {
    hide Drive, Word, Alternatives;
    assert Word(t)[0..] == Word(t);
    LeadsStep(Expect(t, 0), level, Word(t), After(t, level, []), level);
  }

  lemma TokenLevel(t: Token, level: nat, c: nat)
    requires c < |Word(t)|
    ensures LevelAt(Expect(t, 0), level, Word(t), c, level)
  {
    hide Drive, Word, Alternatives;
    assert Word(t)[0..] == Word(t);
    BreakLevel(Expect(t, 0), level, Word(t), c);
  }

  lemma ChoiceStep(o: Options, t: bytes, level: nat)
    requires t in Alternatives<bytes>(o)
    ensures Valid(Select(o, [])) && Iter(true, Select(o, []), level, t) ==
      Continue(Alternatives<bytes>(o)[t], level, |t|)
  {
    AlternativesArePrefixFree<bytes>(o);
    hide Alternatives, Look;
    assert [] + t == t;
    LookMatched(Alternatives<bytes>(o), t, t);
  }

  lemma ChoiceLevel(o: Options, t: bytes, level: nat, c: nat)
    requires t in Alternatives<bytes>(o) && c < |t|
    ensures LevelAt(Select(o, []), level, t, c, level)
  {
    AlternativesArePrefixFree<bytes>(o);
    hide Alternatives, Look, Drive;
    var m := Alternatives<bytes>(o);
    assert [] + t[..c] == t[..c] && t[..c] < t;
    LookOpen(m, t[..c], t[..c]);
    BreakLevel(Select(o, []), level, t, c);
  }

  lemma StringLeads(w: What, b: Blob, level: nat)
    requires b.Ok()
    ensures Valid(Length(w, [])) && Leads(Length(w, []), level, b.Print(), AfterData(w), level)
  {
    hide Drive, Word, Alternatives, LE64, FromLE64, CalcAligned;
    var s := b.Print();
    assert ([] + s)[..8] == LE64(b.len) && s[8..] == b.raw;
    Word64(b.len, LE64(b.len));
    DriveStep(true, Length(w, []), level, s);
    LeadsStep(Data(w, b.len, CalcAligned(b.len)), level, b.raw, AfterData(w), level);
  }

  lemma StringLevel(w: What, b: Blob, level: nat, c: nat)
    requires b.Ok() && c < |b.Print()|
    ensures LevelAt(Length(w, []), level, b.Print(), c, level)
  {
    hide Drive, Word, Alternatives, LE64, FromLE64, CalcAligned;
    var s := b.Print()[..c];
    if c < 8 {
      BreakLevel(Length(w, []), level, b.Print(), c);
    } else {
      assert ([] + s)[..8] == LE64(b.len);
      Word64(b.len, LE64(b.len));
      DriveStep(true, Length(w, []), level, s);
      DriveStep(true, Data(w, b.len, CalcAligned(b.len)), level, s[8..]);
    }
  }

  // ---------- files, links and the heads of entries ----------

  /** A choice for a string, the string, and one more token. */
  lemma PartsLead(o: Options, t: bytes, w: What, b: Blob, next: Token, level: nat)
    requires t in Alternatives<bytes>(o) && Alternatives<bytes>(o)[t] == Length(w, []) && b.Ok()
    requires AfterData<bytes>(w) == Expect(next, 0)
    ensures Leads(Select(o, []), level, t + (b.Print() + Word(next)), After(next, level, []), level)
  {
    hide Drive, Word, Alternatives, Valid, Iter;
    ChoiceStep(o, t, level);
    LeadsStep(Select(o, []), level, t, Length(w, []), level);
    StringLeads(w, b, level);
    TokenLeads(next, level);
    LeadsOn(Length(w, []), level, b.Print(), Expect(next, 0), level, Word(next), After(next, level, []), level);
    LeadsOn(Select(o, []), level, t, Length(w, []), level, b.Print() + Word(next), After(next, level, []), level);
  }

  lemma PartsLevel(o: Options, t: bytes, w: What, b: Blob, next: Token, level: nat, c: nat)
    requires t in Alternatives<bytes>(o) && Alternatives<bytes>(o)[t] == Length(w, []) && b.Ok()
    requires AfterData<bytes>(w) == Expect(next, 0) && c < |t + (b.Print() + Word(next))|
    ensures LevelAt(Select(o, []), level, t + (b.Print() + Word(next)), c, level)
  {
    hide Drive, Word, Alternatives, Valid, Iter, LevelAt, Blob.Print;
    var s, k := b.Print(), Word(next);
    if c < |t| {
      ChoiceLevel(o, t, level, c);
      Inside(Select(o, []), level, t, s + k, c, level);
    } else {
      ChoiceStep(o, t, level);
      LeadsStep(Select(o, []), level, t, Length(w, []), level);
      var d := c - |t|;
      if d < |s| {
        StringLevel(w, b, level, d);
        Inside(Length(w, []), level, s, k, d, level);
      } else {
        StringLeads(w, b, level);
        TokenLevel(next, level, d - |s|);
        Behind(Length(w, []), level, s, Expect(next, 0), level, k, d - |s|, level);
      }
      Behind(Select(o, []), level, t, Length(w, []), level, s + k, d, level);
    }
  }

  /** The parts of an entry. */
  lemma EntryParts(name: Blob, node: Node<Blob>, rest: Entries<Blob>, k: bytes)
    ensures Items(Entry(name, node, rest), k) == EntryHead(name) + (Body(node, []) + (TokPar() + Items(rest, k)))
    ensures EntryHead(name) == TokEntry() + (name.Print() + TokNode())
  {
    hide TokPar, TokEntry, TokNode, LE64, Body, Str;
    BodyAppend(node, TokPar() + Items(rest, k));
    var x, y := TokNode(), Body(node, []) + (TokPar() + Items(rest, k));
    assert TokEntry() + (LE64(name.len) + (name.raw + (x + y))) == TokEntry() + (LE64(name.len) + name.raw) + x + y;
  }

  lemma BodyAppend(n: Node<Blob>, k: bytes)
    ensures Body(n, k) == Body(n, []) + k
  {
    hide Body, Str, PrintNode;
    var open := Str("(") + Str("type");
    PrintNodeIsBody(n, k);
    PrintNodeIsBody(n, []);
    assert PrintNode(n) + [] == PrintNode(n);
    Assoc(open, Body(n, []), k);
    assert (open + Body(n, k))[|open|..] == Body(n, k);
    assert (open + (Body(n, []) + k))[|open|..] == Body(n, []) + k;
  }

  lemma ItemsAppend(es: Entries<Blob>, k: bytes)
    ensures Items(es, k) == Items(es, []) + k
  {
    hide Items, PrintEntries;
    PrintEntriesIsItems(es, k);
    PrintEntriesIsItems(es, []);
    assert PrintEntries(es) + [] == PrintEntries(es);
  }

  // ---------- whole nodes ----------

  lemma Words()
    ensures Word(FinishNode) == Word(FinishEntry) == TokPar() && Word(ReadNode) == TokNode() && Word(Root) == TokRoot()
  {}

  /** The parts of a file or a link. */
  lemma LeafParts(n: Node<Blob>)
    requires !n.Directory?
    ensures var (t, b) := LeafToken(n); Body(n, []) == t + (b.Print() + TokPar())
  {
    hide TokPar, TokSym, TokFile, TokFileE, LE64;
    var (t, b) := LeafToken(n);
    assert TokPar() + [] == TokPar();
    assert t + (LE64(b.len) + (b.raw + TokPar())) == t + ((LE64(b.len) + b.raw) + TokPar());
  }

  function LeafToken(n: Node<Blob>): (bytes, Blob)
    requires !n.Directory?
  {
    if n.Regular? then (TokRegular(n.executable), n.contents) else (TokSym(), n.target)
  }

  function LeafType(n: Node<Blob>): What {
    Contents(if n.Regular? then RegularType(n.executable) else Link)
  }

  lemma LeafChoice(n: Node<Blob>)
    requires !n.Directory?
    ensures var m := Alternatives<bytes>(NodeKinds); LeafToken(n).0 in m && m[LeafToken(n).0] == Length(LeafType(n), [])
  {
    hide TokSym, TokRegular, Alternatives;
    AlternativeValues<bytes>();
  }

  /** The two tokens around the entries of a directory. */
  lemma DirectoryLeads(level: nat)
    ensures Leads(Select(NodeKinds, []), level, TokDir(), Select(DirEntries, []), level + 1)
    ensures level > 0 ==> Leads(Select(DirEntries, []), level, TokPar(), Close<bytes>(level).0, Close<bytes>(level).1)
  {
    hide Drive, Alternatives, Word, Look, TokDir, TokPar, Valid, Iter;
    AlternativeValues<bytes>();
    ChoiceStep(NodeKinds, TokDir(), level);
    LeadsStep(Select(NodeKinds, []), level, TokDir(), ReadDir, level);
    ChoiceStep(DirEntries, TokPar(), level);
    LeadsStep(Select(DirEntries, []), level, TokPar(), FinishReadEntry, level);
  }

  lemma EntryHeadLeads(name: Blob, level: nat)
    requires name.Ok()
    ensures Leads(Select(DirEntries, []), level, EntryHead(name), Select(NodeKinds, []), level)
    ensures forall c: nat | c < |EntryHead(name)| :: LevelAt(Select(DirEntries, []), level, EntryHead(name), c, level)
  {
    hide Drive, Alternatives, Word, TokEntry, TokNode, Leads, LevelAt;
    AlternativeValues<bytes>();
    Words();
    EntryParts(name, Symlink(name), Nil, []);
    PartsLead(DirEntries, TokEntry(), EntryName, name, ReadNode, level);
    forall c: nat | c < |EntryHead(name)|
      ensures LevelAt(Select(DirEntries, []), level, EntryHead(name), c, level)
    {
      PartsLevel(DirEntries, TokEntry(), EntryName, name, ReadNode, level, c);
    }
  }

  /** A node inside a directory is read from end to end, and the level is what it was. */
  lemma {:induction false} NodeLeads(n: Node<Blob>, level: nat)
    requires WellFormed(n, false) && level > 0
    ensures Leads(Select(NodeKinds, []), level, Body(n, []), Expect(FinishEntry, 0), level)
    decreases n
  {
    hide Alternatives, Word, TokDir, TokPar, Leads, LeafToken, LeafType;
    Words();
    if n.Directory? {
      DirectoryLeads(level);
      DirectoryLeads(level + 1);
      EntriesLead(n.entries, level + 1);
      assert TokPar() + [] == TokPar();
      ItemsAppend(n.entries, TokPar());
      LeadsOn(Select(DirEntries, []), level + 1, Items(n.entries, []), Select(DirEntries, []), level + 1, TokPar(),
        Expect(FinishEntry, 0), level);
      LeadsOn(Select(NodeKinds, []), level, TokDir(), Select(DirEntries, []), level + 1, Items(n.entries, TokPar()),
        Expect(FinishEntry, 0), level);
    } else {
      LeafParts(n);
      LeafChoice(n);
      LeafReady(n);
      PartsLead(NodeKinds, LeafToken(n).0, LeafType(n), LeafToken(n).1, FinishNode, level);
    }
  }

  lemma LeafReady(n: Node<Blob>)
    requires !n.Directory? && WellFormed(n, false)
    ensures LeafToken(n).1.Ok() && AfterData<bytes>(LeafType(n)) == Expect(FinishNode, 0)
  {
    hide TokRegular, TokSym;
  }

  lemma {:induction false} EntriesLead(es: Entries<Blob>, level: nat)
    requires WellFormedEntries(es, false) && level > 0
    ensures Leads(Select(DirEntries, []), level, Items(es, []), Select(DirEntries, []), level)
    decreases es
  {
    hide Alternatives, Word, TokPar, TokEntry, TokNode, Body, EntryHead, Drive;
    DirectoryLeads(level);
    if es.Entry? {
      var h, b, p, i := EntryHead(es.name), Body(es.node, []), TokPar(), Items(es.rest, []);
      var d: State := Select(DirEntries, []);
      Words();
      EntryParts(es.name, es.node, es.rest, []);
      EntryHeadLeads(es.name, level);
      NodeLeads(es.node, level);
      TokenLeads(FinishEntry, level);
      EntriesLead(es.rest, level);
      LeadsOn(Expect(FinishEntry, 0), level, p, d, level, i, d, level);
      LeadsOn(Select(NodeKinds, []), level, b, Expect(FinishEntry, 0), level, p + i, d, level);
      LeadsOn(d, level, h, Select(NodeKinds, []), level, b + (p + i), d, level);
    } else {
      Idle(Select(DirEntries, []), level);
    }
  }

  // ---------- the level at every byte ----------

  lemma DirectoryParts(es: Entries<Blob>)
    ensures Body(Directory(es), []) == TokDir() + Items(es, TokPar())
  {
    hide TokDir, TokPar, Items;
    assert TokPar() + [] == TokPar();
  }

  lemma LeafLevel(n: Node<Blob>, level: nat, c: nat)
    requires WellFormed(n, false) && !n.Directory? && c < |Body(n, [])|
    ensures LevelAt(Select(NodeKinds, []), level, Body(n, []), c, level)
  {
    hide Alternatives, Word, TokPar, TokRoot, TokNode, LevelAt, LeafToken, LeafType, Body;
    Words();
    LeafParts(n);
    LeafChoice(n);
    LeafReady(n);
    PartsLevel(NodeKinds, LeafToken(n).0, LeafType(n), LeafToken(n).1, FinishNode, level, c);
  }

  lemma OpeningLevel(y: bytes, level: nat, c: nat)
    requires c < |TokDir()|
    ensures LevelAt(Select(NodeKinds, []), level, TokDir() + y, c, level)
  {
    hide Alternatives, TokDir, TokPar, TokEntry, TokSym, TokRegular, LevelAt;
    AlternativeValues<bytes>();
    ChoiceLevel(NodeKinds, TokDir(), level, c);
    Inside(Select(NodeKinds, []), level, TokDir(), y, c, level);
  }

  lemma {:induction false} NodeLevel(n: Node<Blob>, level: nat, c: nat)
    requires WellFormed(n, false) && c < |Body(n, [])|
    ensures LevelAt(Select(NodeKinds, []), level, Body(n, []), c, level + OpenIn(n, c))
    decreases n
  {
    hide Alternatives, TokDir, TokPar, Leads, LevelAt, Body, Items, OpenAmong;
    if n.Directory? {
      var x, y := TokDir(), Items(n.entries, TokPar());
      DirectoryParts(n.entries);
      if c < |x| {
        OpeningLevel(y, level, c);
      } else {
        var d := c - |x|;
        DirectoryLeads(level);
        EntriesLevel(n.entries, level + 1, d);
        Behind(Select(NodeKinds, []), level, x, Select(DirEntries, []), level + 1, y, d,
          level + 1 + OpenAmong(n.entries, d));
      }
    } else {
      LeafLevel(n, level, c);
    }
  }

  /** The entries of a directory and its closing parenthesis. */
  lemma {:induction false} EntriesLevel(es: Entries<Blob>, level: nat, c: nat)
    requires WellFormedEntries(es, false) && level > 0 && c < |Items(es, TokPar())|
    ensures LevelAt(Select(DirEntries, []), level, Items(es, TokPar()), c, level + OpenAmong(es, c))
    decreases es
  {
    hide Alternatives, Word, TokPar, TokEntry, TokNode, TokRoot, TokDir, TokSym, TokRegular, Body, EntryHead, Leads,
      LevelAt;
    if es.Nil? {
      AlternativeValues<bytes>();
      ChoiceLevel(DirEntries, TokPar(), level, c);
    } else {
      var h, b, k := EntryHead(es.name), Body(es.node, []), TokPar() + Items(es.rest, TokPar());
      EntryParts(es.name, es.node, es.rest, TokPar());
      EntryHeadLeads(es.name, level);
      if c < |h| {
        Inside(Select(DirEntries, []), level, h, b + k, c, level);
      } else {
        EntryLevel(es, level, c - |h|);
        Behind(Select(DirEntries, []), level, h, Select(NodeKinds, []), level, b + k, c - |h|,
          level + OpenAmong(es, c));
      }
    }
  }

  /** The body of the first entry, and what follows it. */
  lemma {:induction false} EntryLevel(es: Entries<Blob>, level: nat, c: nat)
    requires WellFormedEntries(es, false) && level > 0 && es.Entry?
    requires c < |Body(es.node, []) + (TokPar() + Items(es.rest, TokPar()))|
    ensures LevelAt(Select(NodeKinds, []), level, Body(es.node, []) + (TokPar() + Items(es.rest, TokPar())), c,
                    level + OpenAmong(es, |EntryHead(es.name)| + c))
    decreases es, 0
  {
    hide Alternatives, Word, TokPar, TokEntry, TokNode, TokRoot, TokDir, TokSym, TokRegular, Body, EntryHead, Leads,
      LevelAt;
    var b, p, i := Body(es.node, []), TokPar(), Items(es.rest, TokPar());
    Words();
    if c < |b| {
      NodeLevel(es.node, level, c);
      Inside(Select(NodeKinds, []), level, b, p + i, c, level + OpenIn(es.node, c));
    } else {
      var d := c - |b|;
      var k := level + OpenAmong(es, |EntryHead(es.name)| + c);
      NodeLeads(es.node, level);
      if d < |p| {
        TokenLevel(FinishEntry, level, d);
        Inside(Expect(FinishEntry, 0), level, p, i, d, level);
      } else {
        TokenLeads(FinishEntry, level);
        EntriesLevel(es.rest, level, d - |p|);
        Behind(Expect(FinishEntry, 0), level, p, Select(DirEntries, []), level, i, d - |p|, k);
      }
      Behind(Select(NodeKinds, []), level, b, Expect(FinishEntry, 0), level, p + i, d, k);
    }
  }

  /** Until the end of a NAR is reached, `level` is the number of open directories. */
  lemma LevelIsOpenDirectories(n: Node<Blob>, c: nat)
    requires WellFormed(n, false) && c < |PrintRoot(n)|
    ensures Valid(Start)
    ensures var r := Drive(true, Start, 0, PrintRoot(n)[..c]);
      r.Stop? && !r.state.Eof? && r.level == OpenDirectories(n, c)
  {
    hide Alternatives, Word, TokRoot, TokPar, TokNode, Body, PrintRoot, Drive, OpenIn;
    var x, y := TokRoot(), Body(n, []);
    Words();
    PrintRootIsBody(n, []);
    assert PrintRoot(n) + [] == PrintRoot(n);
    if c < |x| {
      TokenLevel(Root, 0, c);
      Inside(Start, 0, x, y, c, 0);
    } else {
      TokenLeads(Root, 0);
      NodeLevel(n, 0, c - |x|);
      Behind(Start, 0, x, Select(NodeKinds, []), 0, y, c - |x|, OpenIn(n, c - |x|));
    }
    assert LevelAt(Start, 0, PrintRoot(n), c, OpenDirectories(n, c));
  }

  /** At the end of a NAR the level is one for a directory: the last one is not counted down. */
  lemma LevelAtEnd(n: Node<Blob>)
    requires WellFormed(n, false)
    ensures Leads(Start, 0, PrintRoot(n), Eof, if n.Directory? then 1 else 0)
  {
    hide Alternatives, Word, TokRoot, TokPar, TokNode, TokDir, Body, Items, PrintRoot, Drive, LeafToken, LeafType;
    var end := if n.Directory? then 1 else 0;
    Words();
    PrintRootIsBody(n, []);
    assert PrintRoot(n) + [] == PrintRoot(n);
    TokenLeads(Root, 0);
    if n.Directory? {
      DirectoryLeads(0);
      DirectoryLeads(1);
      EntriesLead(n.entries, 1);
      DirectoryParts(n.entries);
      ItemsAppend(n.entries, TokPar());
      var d: State := Select(DirEntries, []);
      LeadsOn(d, 1, Items(n.entries, []), d, 1, TokPar(), Eof, 1);
      LeadsOn(Select(NodeKinds, []), 0, TokDir(), d, 1, Items(n.entries, TokPar()), Eof, 1);
    } else {
      LeafParts(n);
      LeafChoice(n);
      LeafReady(n);
      PartsLead(NodeKinds, LeafToken(n).0, LeafType(n), LeafToken(n).1, FinishNode, 0);
    }
    LeadsOn(Start, 0, TokRoot(), Select(NodeKinds, []), 0, Body(n, []), Eof, end);
  }
}
