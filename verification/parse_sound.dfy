/** What the parser accepts: exactly the proper NARs, with anything behind them. */
module ParserSound {
  import opened Wire
  import opened Grammar
  import opened Choice
  import opened Machine
  import opened Parsing
  import Recogniser
  import Unambiguous

  /** The events come to an end without an error. */
  predicate EndsWell(t: Trace) { t.Done? || (t.More? && EndsWell(t.next)) }

  /** What is left of the stream then. */
  function Left(t: Trace): bytes
    requires EndsWell(t)
  {
    if t.Done? then t.rest else Left(t.next)
  }

  lemma {:induction false} EndsThen(events: seq<NarEvent>, t: Trace)
    ensures EndsWell(Then(events, t)) <==> EndsWell(t)
    ensures EndsWell(t) ==> Left(Then(events, t)) == Left(t)
  {
    if events != [] { EndsThen(events[1..], t); }
  }

  /** In the middle of a token, the parser goes on only past the token. */
  lemma ParseContinues(st: State, level: nat, name: bytes, s: bytes)
    requires Drivable(st) && EndsWell(Parse(st, level, name, s))
    ensures Iter(false, st, level, s).Continue?
  {
    hide Word, Alternatives, Look, FromLE64, CalcAligned, Act;
    DriveStep(false, st, level, s);
  }

  lemma TokenSound(t: Token, level: nat, name: bytes, s: bytes) returns (k: bytes)
    requires Drivable(Expect(t, 0)) && EndsWell(Parse(Expect(t, 0), level, name, s))
    ensures s == Word(t) + k && |k| < |s|
  {
    hide Word, Alternatives, Parse;
    ParseContinues(Expect(t, 0), level, name, s);
    assert Word(t)[0..] == Word(t);
    k := s[|Word(t)|..];
  }

  lemma ChoiceSound(o: Options, level: nat, name: bytes, s: bytes) returns (t: bytes, k: bytes)
    requires Drivable(Select(o, [])) && EndsWell(Parse(Select(o, []), level, name, s))
    ensures t in Alternatives<bytes>(o) && s == t + k && |k| < |s|
  {
    hide Word, Alternatives, Parse, Look;
    AlternativesArePrefixFree<bytes>(o);
    ParseContinues(Select(o, []), level, name, s);
    assert [] + s == s;
    t := Look(Alternatives<bytes>(o), s).token;
    LookOpen(Alternatives<bytes>(o), [], s);
    k := s[|t|..];
  }

  /** A length word, and what the parser makes of the string behind it. */
  lemma LengthSound(w: What, level: nat, name: bytes, s: bytes) returns (len: u64, k: bytes)
    requires Drivable(Length(w, [])) && EndsWell(Parse(Length(w, []), level, name, s))
    ensures s == LE64(len) + k && |k| + 8 == |s|
    ensures Parse(Length(w, []), level, name, s) == Act(Data(w, len, CalcAligned(len)), level, name, k)
  {
    hide Word, Alternatives, Parse, Act, LE64, FromLE64, CalcAligned;
    ParseContinues(Length(w, []), level, name, s);
    ParseStep(Length(w, []), level, name, s);
    assert ([] + s)[..8] == s[..8];
    len, k := FromLE64(s[..8]), s[8..];
    Word64(len, s[..8]);
  }

  /** A name or a link target. */
  lemma StringSound(w: What, level: nat, name: bytes, s: bytes) returns (b: Blob, k: bytes)
    requires w.Contents? ==> w.nodeType == Link
    requires Drivable(Length(w, [])) && EndsWell(Parse(Length(w, []), level, name, s))
    ensures b.Proper() && s == LE64(b.len) + (b.raw + k) && |k| < |s|
    ensures Drivable(Expect(FinishNode, 0)) && Drivable(Expect(ReadNode, 0))
    ensures if w.EntryName? then EndsWell(Parse(Expect(ReadNode, 0), level, b.Data(), k))
            else EndsWell(Parse(Expect(FinishNode, 0), level, [], k))
  {
    hide Word, Alternatives, Parse, Act, LE64;
    var len, s1 := LengthSound(w, level, name, s);
    var aligned := CalcAligned(len);
    ActString(w, len, aligned, level, name, s1);
    b, k := Blob(len, s1[..aligned]), s1[aligned..];
    assert b.raw + k == s1 && b.raw[..len] == s1[..len];
  }

  /** The contents of a file: the padded string has to be there, and be followed by a token. */
  lemma FileSound(t: NodeType, level: nat, name: bytes, s: bytes) returns (b: Blob, k: bytes)
    requires t != Link && |s| < U64
    requires Drivable(Length(Contents(t), [])) && EndsWell(Parse(Length(Contents(t), []), level, name, s))
    ensures b.Proper() && s == LE64(b.len) + (b.raw + k) && |k| < |s|
    ensures Drivable(Expect(FinishNode, 0)) && EndsWell(Parse(Expect(FinishNode, 0), level, [], k))
  {
    hide Word, Alternatives, Parse, Act, LE64;
    var len, s1 := LengthSound(Contents(t), level, name, s);
    ActFile(t, len, CalcAligned(len), level, name, s1);
    if Skip(len, s1) == [] { ParseNothing(Expect(FinishNode, 0), level, []); }
    var aligned := Padded(len);
    assert aligned < |s1|;
    b, k := Blob(len, s1[..aligned]), s1[aligned..];
    assert b.raw + k == s1;
  }

  lemma {:induction false} NodeSound(level: nat, name: bytes, s: bytes) returns (n: Node<Blob>, k: bytes)
    requires |s| < U64 && Drivable(Select(NodeKinds, [])) && EndsWell(Parse(Select(NodeKinds, []), level, name, s))
    ensures WellFormed(n, true) && s == Body(n, k) && |k| < |s|
    decreases |s|, 1
  {
    hide Word, Alternatives, Parse, LE64, TokDir, TokSym, TokFile, TokFileE, TokPar;
    DrivableStates();
    AlternativeValues<bytes>();
    var t, s1 := ChoiceSound(NodeKinds, level, name, s);
    ParseChoice(NodeKinds, t, level, name, s1);
    NodeTokens(t);
    TokensDiffer();
    if t == TokDir() {
      var es;
      es, k := EntriesSound(level + 1, s1);
      n := Directory(es);
    } else {
      var b, s2;
      if t == TokSym() {
        b, s2 := StringSound(Contents(Link), level, name, s1);
        n := Symlink(b);
      } else {
        var x := t == TokFileE();
        b, s2 := FileSound(RegularType(x), level, name, s1);
        n := Regular(x, b);
      }
      k := TokenSound(FinishNode, level, [], s2);
      assert Word(FinishNode) == TokPar() by { ParWord(); }
    }
  }

  lemma ParWord()
    ensures Word(FinishNode) == Word(FinishEntry) == TokPar() && Word(ReadNode) == TokNode() && Word(Root) == TokRoot()
  {}

  lemma NodeTokens(t: bytes)
    ensures t in Alternatives<bytes>(NodeKinds) ==> t == TokDir() || t == TokSym() || t == TokFile() || t == TokFileE()
    ensures t in Alternatives<bytes>(DirEntries) ==> t == TokEntry() || t == TokPar()
  {
    hide TokDir, TokSym, TokFile, TokFileE, TokEntry, TokPar;
  }

  lemma TokensDiffer()
    ensures TokFile() != TokFileE() && TokSym() != TokFile() && TokSym() != TokFileE() && TokEntry() != TokPar()
  {
    hide TokDir, TokSym, TokFile, TokFileE, TokEntry, TokPar, TokRoot, TokNode;
    TokenLengths();
    TokenForks();
  }

  lemma {:induction false} EntriesSound(level: nat, s: bytes) returns (es: Entries<Blob>, k: bytes)
    requires |s| < U64 && level > 0
    requires Drivable(Select(DirEntries, [])) && EndsWell(Parse(Select(DirEntries, []), level, [], s))
    ensures WellFormedEntries(es, true) && s == Items(es, TokPar() + k) && |k| < |s|
    decreases |s|, 0
  {
    hide Word, Alternatives, Parse, LE64, TokPar, TokEntry, TokNode, Body;
    DrivableStates();
    AlternativeValues<bytes>();
    ParWord();
    var t, s1 := ChoiceSound(DirEntries, level, [], s);
    ParseChoice(DirEntries, t, level, [], s1);
    NodeTokens(t);
    TokensDiffer();
    if t == TokPar() {
      es, k := Nil, s1;
    } else {
      var name, s2 := StringSound(EntryName, level, [], s1);
      var s3 := TokenSound(ReadNode, level, name.Data(), s2);
      ParseToken(ReadNode, level, name.Data(), s3);
      var node, s4 := NodeSound(level, name.Data(), s3);
      ParseNode(node, level, name.Data(), s4);
      EndsThen(Events(name.Data(), Plain(node)), AfterNode(level, s4));
      var s5 := TokenSound(FinishEntry, level, [], s4);
      EntryEnd(level, s5);
      var rest;
      rest, k := EntriesSound(level, s5);
      es := Entry(name, node, rest);
    }
  }

  /** What parses without an error is a proper NAR, and the events are those of its tree. */
  lemma ParseSound(s: bytes) returns (n: Node<Blob>, rest: bytes)
    requires |s| < U64 && Drivable(Start) && EndsWell(Parse(Start, 0, [], s))
    ensures WellFormed(n, true) && Encodable(Plain(n)) && s == PrintRoot(n) + rest
    ensures Parse(Start, 0, [], s) == Then(Events([], Plain(n)), Done(rest))
  {
    hide Word, Parse, PrintRoot, Body, TokRoot, TokPar, TokNode;
    DrivableStates();
    ParWord();
    var s1 := TokenSound(Root, 0, [], s);
    ParseToken(Root, 0, [], s1);
    n, rest := NodeSound(0, [], s1);
    PrintRootIsBody(n, rest);
    ParsePrinted(n, rest);
  }

  /** The parser and the grammar: a stream parses without an error, and leaves `rest`, if and only
      if it is a proper NAR followed by `rest`. */
  lemma ParserIsGrammar(s: bytes, rest: bytes)
    requires |s| < U64
    ensures Drivable(Start)
    ensures (var t := Parse(Start, 0, [], s); EndsWell(t) && Left(t) == rest) <==>
            exists n :: WellFormed(n, true) && s == PrintRoot(n) + rest
  {
    hide Parse, PrintRoot, WellFormed, Events;
    DrivableStates();
    var t := Parse(Start, 0, [], s);
    if EndsWell(t) && Left(t) == rest {
      var n, r := ParseSound(s);
      EndsThen(Events([], Plain(n)), Done(r));
      assert WellFormed(n, true) && s == PrintRoot(n) + rest;
    }
    if n :| WellFormed(n, true) && s == PrintRoot(n) + rest {
      ParsePrinted(n, rest);
      EndsThen(Events([], Plain(n)), Done(rest));
    }
  }

  /** Of what the recogniser accepts, the parser accepts exactly what is proper: where a declared
      length wraps, it ends in an error. */
  lemma ParsesIffProper(n: Node<Blob>, rest: bytes)
    requires WellFormed(n, false) && |PrintRoot(n) + rest| < U64
    ensures Drivable(Start)
    ensures EndsWell(Parse(Start, 0, [], PrintRoot(n) + rest)) <==> WellFormed(n, true)
  {
    hide Parse, PrintRoot, WellFormed, Events;
    DrivableStates();
    var s := PrintRoot(n) + rest;
    if WellFormed(n, true) {
      ParsePrinted(n, rest);
      EndsThen(Events([], Plain(n)), Done(rest));
    }
    if EndsWell(Parse(Start, 0, [], s)) {
      var m, r := ParseSound(s);
      Weaken(m);
      PrefixesOfOne(PrintRoot(m), PrintRoot(n), s);
      if PrintRoot(m) <= PrintRoot(n) { Recogniser.NoProperPrefix(m, n); } else { Recogniser.NoProperPrefix(n, m); }
      Unambiguous.DerivationUnique(m, n);
    }
  }

  /** An input on which that happens: a file that declares 2^64 - 1 bytes and has none. The parser
      offers everything behind the length word as its contents, and then finds nothing. */
  lemma WrappedContents(rest: bytes)
    requires 16 + |rest| < 0xFFFF_FFFF_FFFF_FFFF
    ensures Drivable(Start)
    ensures var n: Node<Blob> := Regular(false, Blob(0xFFFF_FFFF_FFFF_FFFF, []));
      Parse(Start, 0, [], PrintRoot(n) + rest) ==
      More(FileEvent([], false, 0xFFFF_FFFF_FFFF_FFFF, TokPar() + rest), Bad)
  {
    hide Word, Alternatives, Parse, Act, PrintRoot, LE64, TokRoot, TokPar, TokNode, TokFile, TokFileE, TokDir, TokSym,
      TokEntry;
    DrivableStates();
    AlternativeValues<bytes>();
    ParWord();
    TokenLengths();
    var b := Blob(0xFFFF_FFFF_FFFF_FFFF, []);
    var s := TokPar() + rest;
    PrintRootIsBody(Regular(false, b), rest);
    ParseToken(Root, 0, [], Body(Regular(false, b), rest));
    assert TokRegular(false) == TokFile();
    ParseChoice(NodeKinds, TokFile(), 0, [], LE64(b.len) + (b.raw + s));
    ParseString(Contents(File), 0, [], b, s);
    assert b.raw + s == s;
    ActFile(File, b.len, CalcAligned(b.len), 0, [], s);
    assert Skip(b.len, s) == [] && s[..|s|] == s;
    ParseNothing(Expect(FinishNode, 0), 0, []);
  }

  // ---------- how parsing ends ----------

  datatype End = Well | Failure | Crash

  function EndOf(t: Trace): End {
    match t
    case Done(_) => Well
    case More(_, next) => EndOf(next)
    case Bad => Failure
    case Panic => Crash
  }

  lemma {:induction false} EndOfThen(events: seq<NarEvent>, t: Trace)
    ensures EndOf(Then(events, t)) == EndOf(t)
  {
    if events != [] { EndOfThen(events[1..], t); }
  }

  /** The first declared length that wraps decides: of a name or a link target it makes the code
      panic, of contents it is an error. */
  function Fate(n: Node<Blob>): End
    decreases n
  {
    match n
    case Regular(_, c) => if c.len <= MAX_LEN then Well else Failure
    case Symlink(t) => if t.len <= MAX_LEN then Well else Crash
    case Directory(es) => FateAmong(es)
  }

  function FateAmong(es: Entries<Blob>): End
    decreases es
  {
    match es
    case Nil => Well
    case Entry(name, node, rest) =>
      if name.len > MAX_LEN then Crash else if Fate(node) != Well then Fate(node) else FateAmong(rest)
  }

  lemma {:induction false} WellIsProper(n: Node<Blob>)
    requires WellFormed(n, false)
    ensures Fate(n) == Well <==> WellFormed(n, true)
    decreases n
  {
    if n.Directory? { WellAmong(n.entries); }
  }

  lemma {:induction false} WellAmong(es: Entries<Blob>)
    requires WellFormedEntries(es, false)
    ensures FateAmong(es) == Well <==> WellFormedEntries(es, true)
    decreases es
  {
    if es.Entry? {
      WellIsProper(es.node);
      WellAmong(es.rest);
    }
  }

  /** The parser at contents whose length wraps: it finds nothing behind them. */
  lemma WrappedFile(t: NodeType, level: nat, name: bytes, b: Blob, k: bytes)
    requires t != Link && b.Ok() && b.len > MAX_LEN && |b.raw + k| < b.len
    ensures EndOf(Act(Data(Contents(t), b.len, CalcAligned(b.len)), level, name, b.raw + k)) == Failure
  {
    hide Parse, Act;
    ActFile(t, b.len, CalcAligned(b.len), level, name, b.raw + k);
    assert Skip(b.len, b.raw + k) == [];
    ParseNothing(Expect(FinishNode, 0), level, []);
  }

  lemma WrappedString(w: What, level: nat, name: bytes, b: Blob, k: bytes)
    requires b.Ok() && b.len > MAX_LEN && (w.Contents? ==> w.nodeType == Link)
    ensures Act(Data(w, b.len, CalcAligned(b.len)), level, name, b.raw + k) == Panic
  {
    hide Parse, Act;
    ActString(w, b.len, CalcAligned(b.len), level, name, b.raw + k);
  }

  lemma {:induction false} NodeFate(n: Node<Blob>, level: nat, name: bytes, k: bytes)
    requires WellFormed(n, false) && Fate(n) != Well && |Body(n, k)| <= MAX_LEN
    ensures Drivable(Select(NodeKinds, []))
    ensures EndOf(Parse(Select(NodeKinds, []), level, name, Body(n, k))) == Fate(n)
    decreases n
  {
    hide TokPar, TokDir, TokSym, TokFile, TokFileE, Parse, Act, LE64, Alternatives, Word;
    DrivableStates();
    AlternativeValues<bytes>();
    match n
    case Regular(x, c) =>
      ParseChoice(NodeKinds, TokRegular(x), level, name, LE64(c.len) + (c.raw + (TokPar() + k)));
      ParseString(Contents(RegularType(x)), level, name, c, TokPar() + k);
      WrappedFile(RegularType(x), level, name, c, TokPar() + k);
    case Symlink(t) =>
      ParseChoice(NodeKinds, TokSym(), level, name, LE64(t.len) + (t.raw + (TokPar() + k)));
      ParseString(Contents(Link), level, name, t, TokPar() + k);
      WrappedString(Contents(Link), level, name, t, TokPar() + k);
    case Directory(es) =>
      ParseChoice(NodeKinds, TokDir(), level, name, Items(es, TokPar() + k));
      EntriesFate(es, level + 1, k);
      ActDirectory(level + 1, name, Items(es, TokPar() + k));
  }

  lemma ActDirectory(level: nat, name: bytes, s: bytes)
    ensures Drivable(Select(DirEntries, []))
    ensures EndOf(Act(ReadDir, level, name, s)) == EndOf(Parse(Select(DirEntries, []), level, [], s))
  {
    hide Parse;
    DrivableStates();
  }

  lemma {:induction false} EntriesFate(es: Entries<Blob>, level: nat, k: bytes)
    requires WellFormedEntries(es, false) && FateAmong(es) != Well && |Items(es, TokPar() + k)| <= MAX_LEN && level > 0
    ensures Drivable(Select(DirEntries, []))
    ensures EndOf(Parse(Select(DirEntries, []), level, [], Items(es, TokPar() + k))) == FateAmong(es)
    decreases es
  {
    hide TokPar, TokEntry, TokNode, Parse, Act, LE64, Alternatives, Word, Body;
    DrivableStates();
    AlternativeValues<bytes>();
    var name, node, rest := es.name, es.node, es.rest;
    var s1 := Items(rest, TokPar() + k);
    var s2 := Body(node, TokPar() + s1);
    ParseChoice(DirEntries, TokEntry(), level, [], LE64(name.len) + (name.raw + (TokNode() + s2)));
    ParseString(EntryName, level, [], name, TokNode() + s2);
    if name.len > MAX_LEN {
      WrappedString(EntryName, level, [], name, TokNode() + s2);
    } else {
      EntryStart(name, level, s2);
      BodyIsLonger(node, TokPar() + s1);
      if Fate(node) != Well {
        NodeFate(node, level, name.Data(), TokPar() + s1);
      } else {
        WellIsProper(node);
        ParseNode(node, level, name.Data(), TokPar() + s1);
        EndOfThen(Events(name.Data(), Plain(node)), AfterNode(level, TokPar() + s1));
        EntryEnd(level, s1);
        EntriesFate(rest, level, k);
      }
    }
  }

  lemma BodyIsLonger(n: Node<Blob>, k: bytes)
    ensures |k| <= |Body(n, k)|
  {
    hide Body, Str, PrintNode;
    PrintNodeIsBody(n, k);
    PrintNodeIsBody(n, []);
    assert |PrintNode(n)| + |k| == |Str("(") + Str("type")| + |Body(n, k)|;
    assert |PrintNode(n)| == |Str("(") + Str("type")| + |Body(n, [])|;
  }

  /** Parsing what the recogniser accepts ends as its first wrapped length says: without one it goes
      well, and otherwise with an error, or with a panic of the code exactly if it is the length of a
      name or a link target. */
  lemma ParseFate(n: Node<Blob>, rest: bytes)
    requires WellFormed(n, false) && |PrintRoot(n) + rest| <= MAX_LEN
    ensures Drivable(Start) && EndOf(Parse(Start, 0, [], PrintRoot(n) + rest)) == Fate(n)
  {
    hide Parse, PrintRoot, Body, TokRoot, TokPar, TokNode, Word, Events;
    DrivableStates();
    ParWord();
    WellIsProper(n);
    PrintRootIsBody(n, rest);
    if Fate(n) == Well {
      ParsePrinted(n, rest);
      EndOfThen(Events([], Plain(n)), Done(rest));
    } else {
      ParseToken(Root, 0, [], Body(n, rest));
      NodeFate(n, 0, [], rest);
    }
  }

  /** Inputs on which the code panics: a directory with a name that declares more than 2^64 - 8
      bytes, and has none. */
  lemma WrappedName(len: u64, n: Node<Blob>, rest: bytes)
    requires len > MAX_LEN && n == Directory(Entry(Blob(len, []), Directory(Nil), Nil))
    requires |PrintRoot(n) + rest| <= MAX_LEN
    ensures Drivable(Start) && EndOf(Parse(Start, 0, [], PrintRoot(n) + rest)) == Crash
  {
    hide Parse, PrintRoot, WellFormed, Fate, EndOf, Word, Alternatives;
    WrappedNameFate(len, n);
    ParseFate(n, rest);
  }

  lemma WrappedNameFate(len: u64, n: Node<Blob>)
    requires len > MAX_LEN && n == Directory(Entry(Blob(len, []), Directory(Nil), Nil))
    ensures WellFormed(n, false) && Fate(n) == Crash
  {
    hide CalcAligned;
    var empty: Node<Blob> := Directory(Nil);
    assert WellFormedEntries(empty.entries, false) && WellFormed(empty, false);
    assert n.entries.rest == Nil && WellFormedEntries(n.entries.rest, false);
    assert n.entries.name.Ok() && WellFormedEntries(n.entries, false);
  }
}
