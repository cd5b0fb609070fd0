/** The flat machine with a bare `level` counter recognises exactly the recursive grammar. */
module Recogniser {
  import opened Wire
  import opened Grammar
  import opened Choice
  import opened Machine
  import opened Chunking

  /** `drive` (skipping contents) reaches `Eof` exactly at the end of `s`. */
  ghost predicate Accept(st: State, level: nat, s: bytes)
    requires Valid(st)
  {
    var r := Drive(true, st, level, s);
    r.Stop? && r.state == Eof && r.parsed == |s|
  }

  lemma AcceptStep(st: State, level: nat, s: bytes)
    requires Valid(st)
    ensures var r := Iter(true, st, level, s);
      Accept(st, level, s) <==>
      if st.Eof? then s == []
      else r.Continue? && r.used <= |s| && Valid(r.state) && Accept(r.state, r.level, s[r.used..])
    ensures s[0..] == s
  {
    hide Word, Alternatives, Look, FromLE64, CalcAligned;
    DriveStep(true, st, level, s);
  }

  /** Where the machine is after a node of `level` open directories, and what is left. */
  ghost predicate NodeDone(level: nat, k: bytes) {
    if level == 0 then k == []
    else Accept(Expect(FinishEntry, 0), level, k)
  }

  lemma ExpectAccept(t: Token, level: nat, k: bytes)
    ensures Valid(Expect(t, 0)) && Valid(After(t, level, []))
    ensures Accept(Expect(t, 0), level, Word(t) + k) <==> Accept(After(t, level, []), level, k)
  {
    AlternativesArePrefixFree<bytes>(NodeKinds);
    AlternativesArePrefixFree<bytes>(DirEntries);
    hide Word, Alternatives, PrefixFree, Drive;
    AcceptStep(Expect(t, 0), level, Word(t) + k);
    assert Word(t)[0..] == Word(t) && (Word(t) + k)[|Word(t)|..] == k;
  }

  lemma ExpectSound(t: Token, level: nat, s: bytes) returns (k: bytes)
    requires Valid(Expect(t, 0)) && Accept(Expect(t, 0), level, s)
    ensures s == Word(t) + k && |k| < |s|
    ensures Valid(After(t, level, [])) && Accept(After(t, level, []), level, k)
  {
    hide Word, Alternatives, Drive, Look, FromLE64, CalcAligned;
    AcceptStep(Expect(t, 0), level, s);
    assert Word(t)[0..] == Word(t);
    k := s[|Word(t)|..];
    assert s == Word(t) + k;
    ExpectAccept(t, level, k);
  }

  lemma SelectAccept(o: Options, t: bytes, level: nat, k: bytes)
    requires t in Alternatives<bytes>(o)
    ensures Valid(Select(o, [])) && Valid(Alternatives<bytes>(o)[t])
    ensures Accept(Select(o, []), level, t + k) <==> Accept(Alternatives<bytes>(o)[t], level, k)
  {
    AlternativesArePrefixFree<bytes>(o);
    hide Alternatives, Drive, Look;
    LookMatched(Alternatives<bytes>(o), t, t + k);
    AcceptStep(Select(o, []), level, t + k);
    assert [] + (t + k) == t + k && (t + k)[|t|..] == k;
  }

  lemma SelectSound(o: Options, level: nat, s: bytes) returns (t: bytes, k: bytes)
    requires Valid(Select(o, [])) && Accept(Select(o, []), level, s)
    ensures t in Alternatives<bytes>(o) && s == t + k && |k| < |s|
    ensures Valid(Alternatives<bytes>(o)[t]) && Accept(Alternatives<bytes>(o)[t], level, k)
  {
    hide Alternatives, Drive, Look, Word, FromLE64, CalcAligned;
    AlternativesArePrefixFree<bytes>(o);
    AcceptStep(Select(o, []), level, s);
    assert [] + s == s;
    t := Look(Alternatives<bytes>(o), s).token;
    k := s[|t|..];
    LookOpen(Alternatives<bytes>(o), [], s);
    SelectAccept(o, t, level, k);
  }

  lemma StringAccept(w: What, level: nat, b: Blob, k: bytes)
    requires b.Ok()
    ensures Valid(AfterData<bytes>(w))
    ensures Accept(Length(w, []), level, LE64(b.len) + (b.raw + k)) <==> Accept(AfterData(w), level, k)
  {
    hide Word, Drive, LE64, FromLE64, CalcAligned;
    var s := LE64(b.len) + (b.raw + k);
    assert ([] + s)[..8] == LE64(b.len) && s[8..] == b.raw + k;
    Word64(b.len, LE64(b.len));
    AcceptStep(Length(w, []), level, s);
    AcceptStep(Data(w, b.len, CalcAligned(b.len)), level, b.raw + k);
    assert (b.raw + k)[|b.raw|..] == k;
  }

  lemma StringSound(w: What, level: nat, s: bytes) returns (b: Blob, k: bytes)
    requires Accept(Length(w, []), level, s)
    ensures b.Ok() && s == LE64(b.len) + (b.raw + k) && |k| < |s|
    ensures Valid(AfterData<bytes>(w)) && Accept(AfterData(w), level, k)
  {
    hide Word, Drive, LE64, FromLE64, CalcAligned;
    AcceptStep(Length(w, []), level, s);
    assert ([] + s)[..8] == s[..8];
    var len := FromLE64(s[..8]);
    Word64(0, s[..8]);
    AcceptStep(Data(w, len, CalcAligned(len)), level, s[8..]);
    b := Blob(len, s[8..][..CalcAligned(len)]);
    k := s[8..][CalcAligned(len)..];
    assert s == s[..8] + s[8..] && s[8..] == b.raw + k;
    StringAccept(w, level, b, k);
  }

  // ---------- every derivation is accepted ----------

  lemma {:induction false} NodeComplete(n: Node<Blob>, level: nat, k: bytes)
    requires WellFormed(n, false) && NodeDone(level, k)
    ensures Valid(Select(NodeKinds, [])) && Accept(Select(NodeKinds, []), level, Body(n, k))
    decreases n
  {
    hide TokPar, TokDir, TokSym, TokFile, TokFileE, Drive, LE64;
    AlternativeValues<bytes>();
    ExpectAccept(FinishNode, level, k);
    AcceptStep(Eof, level, k);
    match n
    case Regular(x, c) =>
      StringAccept(Contents(RegularType(x)), level, c, TokPar() + k);
      SelectAccept(NodeKinds, TokRegular(x), level, LE64(c.len) + (c.raw + (TokPar() + k)));
    case Symlink(t) =>
      StringAccept(Contents(Link), level, t, TokPar() + k);
      SelectAccept(NodeKinds, TokSym(), level, LE64(t.len) + (t.raw + (TokPar() + k)));
    case Directory(es) =>
      EntriesComplete(es, level + 1, k);
      AcceptStep(ReadDir, level, Items(es, TokPar() + k));
      SelectAccept(NodeKinds, TokDir(), level, Items(es, TokPar() + k));
  }

  lemma {:induction false} EntriesComplete(es: Entries<Blob>, level: nat, k: bytes)
    requires level > 0 && WellFormedEntries(es, false) && NodeDone(level - 1, k)
    ensures Valid(Select(DirEntries, [])) && Accept(Select(DirEntries, []), level, Items(es, TokPar() + k))
    decreases es
  {
    hide TokPar, TokEntry, TokNode, Drive, LE64, Body;
    AlternativeValues<bytes>();
    match es
    case Nil =>
      AcceptStep(Eof, level, k);
      AcceptStep(FinishReadEntry, level, k);
      SelectAccept(DirEntries, TokPar(), level, k);
    case Entry(name, node, rest) =>
      EntriesComplete(rest, level, k);
      var s1 := Items(rest, TokPar() + k);
      ExpectAccept(FinishEntry, level, s1);
      NodeComplete(node, level, TokPar() + s1);
      var s2 := Body(node, TokPar() + s1);
      ExpectAccept(ReadNode, level, s2);
      StringAccept(EntryName, level, name, TokNode() + s2);
      SelectAccept(DirEntries, TokEntry(), level, LE64(name.len) + (name.raw + (TokNode() + s2)));
  }

  // ---------- whatever is accepted has a derivation ----------

  lemma {:induction false} NodeSound(level: nat, s: bytes) returns (n: Node<Blob>, k: bytes)
    requires Valid(Select(NodeKinds, [])) && Accept(Select(NodeKinds, []), level, s)
    ensures WellFormed(n, false) && s == Body(n, k) && |k| < |s| && NodeDone(level, k)
    decreases |s|
  {
    hide TokPar, TokDir, TokSym, TokFile, TokFileE, Drive, LE64;
    var t, s1 := SelectSound(NodeKinds, level, s);
    var st := Alternatives<bytes>(NodeKinds)[t];
    if st.ReadDir? {
      AcceptStep(ReadDir, level, s1);
      var es;
      es, k := EntriesSound(level + 1, s1);
      n := Directory(es);
    } else {
      var b, s2 := StringSound(st.what, level, s1);
      k := ExpectSound(FinishNode, level, s2);
      AcceptStep(Eof, level, k);
      n := if st.what.nodeType == Link then Symlink(b) else Regular(st.what.nodeType == ExecutableFile, b);
    }
  }

  lemma {:induction false} EntriesSound(level: nat, s: bytes) returns (es: Entries<Blob>, k: bytes)
    requires level > 0 && Valid(Select(DirEntries, [])) && Accept(Select(DirEntries, []), level, s)
    ensures WellFormedEntries(es, false) && s == Items(es, TokPar() + k) && |k| < |s| && NodeDone(level - 1, k)
    decreases |s|
  {
    hide TokPar, TokEntry, TokNode, Drive, LE64, Body;
    var t, s1 := SelectSound(DirEntries, level, s);
    var st := Alternatives<bytes>(DirEntries)[t];
    if st.FinishReadEntry? {
      AcceptStep(FinishReadEntry, level, s1);
      AcceptStep(Eof, level, s1);
      es, k := Nil, s1;
    } else {
      var name, s2 := StringSound(EntryName, level, s1);
      var s3 := ExpectSound(ReadNode, level, s2);
      var node, s4 := NodeSound(level, s3);
      var s5 := ExpectSound(FinishEntry, level, s4);
      var rest;
      rest, k := EntriesSound(level, s5);
      es := Entry(name, node, rest);
    }
  }

  // ---------- the recogniser ----------

  /** The machine reaches `Eof` exactly at the end of `s` if and only if the grammar derives `s`. */
  lemma RecogniserIsGrammar(s: bytes)
    ensures Valid(Start)
    ensures Accept(Start, 0, s) <==> Derives(s)
  {
    hide Word, Drive, Body, PrintRoot;
    if Accept(Start, 0, s) {
      var s1 := ExpectSound(Root, 0, s);
      var n, k := NodeSound(0, s1);
      PrintRootIsBody(n, k);
      assert s == PrintRoot(n) + k == PrintRoot(n) by { WordIsTokRoot(); }
    }
    if Derives(s) {
      var n :| WellFormed(n, false) && PrintRoot(n) == s;
      PrintedIsAccepted(n);
    }
  }

  lemma WordIsTokRoot()
    ensures Word(Root) == TokRoot()
  {}

  lemma PrintedIsAccepted(n: Node<Blob>)
    requires WellFormed(n, false)
    ensures Valid(Start) && Accept(Start, 0, PrintRoot(n))
  {
    hide Word, Drive, Body, PrintRoot, TokRoot;
    NodeComplete(n, 0, []);
    PrintRootIsBody(n, []);
    assert PrintRoot(n) + [] == PrintRoot(n);
    WordIsTokRoot();
    ExpectAccept(Root, 0, Body(n, []));
  }

  /** A NAR is delimited by its own bytes: whatever follows, the machine stops right behind it. */
  lemma ExactDelimiting(n: Node<Blob>, rest: bytes)
    requires WellFormed(n, false)
    ensures Valid(Start)
    ensures var r := Drive(true, Start, 0, PrintRoot(n) + rest);
      r.Stop? && r.state == Eof && r.parsed == |PrintRoot(n)|
  {
    hide Word, Drive, PrintRoot;
    PrintedIsAccepted(n);
    DriveChunk(true, Start, 0, PrintRoot(n), rest);
  }

  /** Hence no NAR is a proper prefix of another. */
  lemma NoProperPrefix(m: Node<Blob>, n: Node<Blob>)
    requires WellFormed(m, false) && WellFormed(n, false)
    requires PrintRoot(m) <= PrintRoot(n)
    ensures PrintRoot(m) == PrintRoot(n)
  {
    hide PrintRoot, Drive;
    var rest := PrintRoot(n)[|PrintRoot(m)|..];
    assert PrintRoot(n) == PrintRoot(m) + rest;
    ExactDelimiting(m, rest);
    ExactDelimiting(n, []);
    assert PrintRoot(n) + [] == PrintRoot(n);
  }
}
