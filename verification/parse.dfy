/** What `NarParser` makes of a stream, as a function, and the proof that it inverts printing. */
module Parsing {
  import opened Wire
  import opened Grammar
  import opened Choice
  import opened Machine
  import opened Chunking

  /** The events that come out of a stream, and how they end: with the rest of the stream behind
      the NAR, with an error, or with a panic of the code. */
  datatype Trace = Done(rest: bytes) | More(event: NarEvent, next: Trace) | Bad | Panic

  function Then(events: seq<NarEvent>, t: Trace): Trace {
    if events == [] then t else More(events[0], Then(events[1..], t))
  }

  /** How many events there are. */
  function Len(t: Trace): nat { if t.More? then 1 + Len(t.next) else 0 }

  lemma {:induction false} LenThen(events: seq<NarEvent>, t: Trace)
    ensures Len(Then(events, t)) == |events| + Len(t)
  {
    if events != [] { LenThen(events[1..], t); }
  }

  /** The string and the padding that follow in the stream, as far as they are there. */
  function Skip(size: u64, s: bytes): bytes {
    s[Min(Padded(size), |s|)..]
  }

  lemma SkipAligned(size: u64, s: bytes)
    requires size <= MAX_LEN && CalcAligned(size) <= |s|
    ensures Skip(size, s) == s[CalcAligned(size)..]
  {}

  /** The states from which the parser drives on. */
  ghost predicate Drivable(st: State) { Valid(st) && !Stopped(false, st) }

  lemma DrivableStates()
    ensures Drivable(Start) && Drivable(Expect(FinishNode, 0)) && Drivable(Expect(FinishEntry, 0))
    ensures Drivable(Expect(ReadNode, 0)) && Drivable(Select(DirEntries, [])) && Drivable(Select(NodeKinds, []))
  {
    hide Word, Alternatives;
    AlternativesArePrefixFree<bytes>(NodeKinds);
    AlternativesArePrefixFree<bytes>(DirEntries);
  }

  /** From a state in the middle of a token: drive, then act on where the machine stopped. */
  ghost function Parse(st: State, level: nat, name: bytes, s: bytes): Trace
    requires Drivable(st)
    decreases |s|, 1
  {
    StopIsAhead(false, st, level, s);
    var r := Drive(false, st, level, s);
    if r.Stop? && Stopped(false, r.state) then Act(r.state, r.level, name, s[r.parsed..]) else Bad
  }

  /** At a stop: what the caller sees, and how it goes on. */
  ghost function Act(st: State, level: nat, name: bytes, s: bytes): Trace
    requires Stopped(false, st)
    decreases |s|, 3
  {
    DrivableStates();
    hide Drivable;
    match st
    case Data(Contents(t), size, aligned) =>
      if t == Link then
        if size > aligned then Panic
        else if aligned > |s| then Bad
        else More(SymlinkEvent(name, s[..size]), Parse(Expect(FinishNode, 0), level, [], s[aligned..]))
      else
        More(FileEvent(name, t == ExecutableFile, size, s[..Min(size, |s|)]),
             Parse(Expect(FinishNode, 0), level, [], Skip(size, s)))
    case Data(EntryName, size, aligned) =>
      if size > aligned then Panic
      else if aligned > |s| then Bad
      else Parse(Expect(ReadNode, 0), level, s[..size], s[aligned..])
    case ReadDir => More(StartDirectory(name), Parse(Select(DirEntries, []), level, [], s))
    case FinishReadEntry => More(EndDirectory, AfterDirectory(level, name, s))
    case Eof => Done(s)
  }

  lemma ActFile(t: NodeType, size: u64, aligned: u64, level: nat, name: bytes, s: bytes)
    requires t != Link
    ensures Drivable(Expect(FinishNode, 0))
    ensures Act(Data(Contents(t), size, aligned), level, name, s) ==
            More(FileEvent(name, t == ExecutableFile, size, s[..Min(size, |s|)]),
                 Parse(Expect(FinishNode, 0), level, [], Skip(size, s)))
  {
    hide Parse;
    DrivableStates();
  }

  lemma ActString(w: What, size: u64, aligned: u64, level: nat, name: bytes, s: bytes)
    requires w.Contents? ==> w.nodeType == Link
    ensures Drivable(Expect(FinishNode, 0)) && Drivable(Expect(ReadNode, 0))
    ensures var t := Act(Data(w, size, aligned), level, name, s);
      if size > aligned then t == Panic
      else if aligned > |s| then t == Bad
      else if w.EntryName? then t == Parse(Expect(ReadNode, 0), level, s[..size], s[aligned..])
      else t == More(SymlinkEvent(name, s[..size]), Parse(Expect(FinishNode, 0), level, [], s[aligned..]))
  {
    hide Parse;
    DrivableStates();
  }

  ghost function AfterDirectory(level: nat, name: bytes, s: bytes): Trace
    decreases |s|, 2
  {
    DrivableStates();
    hide Drivable;
    if level > 1 then Parse(Expect(FinishEntry, 0), level - 1, name, s) else Done(s)
  }

  /** One iteration of the loop in `drive`, as the parser sees it. */
  lemma ParseStep(st: State, level: nat, name: bytes, s: bytes)
    requires Drivable(st) && Iter(false, st, level, s).Continue?
    ensures var r := Iter(false, st, level, s);
      && Valid(r.state) && r.used <= |s|
      && (!Stopped(false, r.state) ==> Parse(st, level, name, s) == Parse(r.state, r.level, name, s[r.used..]))
      && (Stopped(false, r.state) ==>
            Parse(st, level, name, s) ==
            Act(r.state, if r.state.ReadDir? then r.level + 1 else r.level, name, s[r.used..]))
  {
    hide Word, Alternatives, Drive, Iter, Valid, Act;
    DriveStep(false, st, level, s);
    var r := Iter(false, st, level, s);
    var s' := s[r.used..];
    if Stopped(false, r.state) {
      StoppedStays(r.state, r.level, s');
      assert s'[0..] == s';
    } else {
      var d := Drive(false, r.state, r.level, s');
      if d.Stop? { assert s[d.parsed + r.used..] == s'[d.parsed..]; }
    }
  }

  lemma StoppedStays(st: State, level: nat, s: bytes)
    requires Stopped(false, st)
    ensures Valid(st) && Drive(false, st, level, s) == Stop(st, if st.ReadDir? then level + 1 else level, 0)
  {
    DriveStep(false, st, level, s);
  }

  /** Driving over a piece of the stream does not change what will come out of it. */
  lemma ParseAdvance(st: State, level: nat, name: bytes, a: bytes, b: bytes)
    requires Drivable(st)
    ensures var r := Drive(false, st, level, a);
      if r.Error? then Parse(st, level, name, a + b) == Bad
      else if Stopped(false, r.state) then Parse(st, level, name, a + b) ==
        Act(r.state, r.level, name, a[r.parsed..] + b)
      else Drivable(r.state) && r.parsed == |a| && Parse(st, level, name, a + b) == Parse(r.state, r.level, name, b)
  {
    hide Drive, Valid, Act;
    DriveChunk(false, st, level, a, b);
    var r, w := Drive(false, st, level, a), Drive(false, st, level, a + b);
    if r.Stop? && Stopped(false, r.state) {
      assert (a + b)[r.parsed..] == a[r.parsed..] + b;
    } else if r.Stop? {
      var d := Drive(false, r.state, r.level, b);
      if d.Stop? { assert (a + b)[d.parsed + |a|..] == b[d.parsed..]; }
    }
  }

  /** In the middle of a token, the end of the stream is an error. */
  lemma ParseNothing(st: State, level: nat, name: bytes)
    requires Drivable(st)
    ensures Parse(st, level, name, []) == Bad
  {
    hide Drive, Act;
    StopIsAhead(false, st, level, []);
  }

  /** The machine stopped for the contents of a file, which the consumer reads. */
  predicate IsFile<L>(st: InnerState<L>) {
    st.Data? && st.what.Contents? && st.what.nodeType != Link
  }

  /** What will come out of the stream, in the state in which a call leaves the parser: after a
      file, a directory start or a directory end the event is out already. */
  ghost function Plan(st: State, level: nat, name: bytes, s: bytes): Trace {
    DrivableStates();
    if IsFile(st) then Parse(Expect(FinishNode, 0), level, name, s)
    else if st.ReadDir? then Parse(Select(DirEntries, []), level, name, s)
    else if st.FinishReadEntry? then AfterDirectory(level, name, s)
    else if Stopped(false, st) then Act(st, level, name, s)
    else if Drivable(st) then Parse(st, level, name, s)
    else Bad
  }

  /** The states in which the parser goes on by driving. */
  predicate IsDriving<L>(st: InnerState<L>) {
    !IsFile(st) && !st.ReadDir? && !st.FinishReadEntry? && !st.Eof?
  }

  /** Driving over a piece of the stream, from such a state. */
  lemma PlanAdvance(st: State, level: nat, name: bytes, a: bytes, b: bytes)
    requires Valid(st) && IsDriving(st)
    ensures var r := Drive(false, st, level, a);
      if r.Error? then Plan(st, level, name, a + b) == Bad
      else if Stopped(false, r.state) then Plan(st, level, name, a + b) ==
        Act(r.state, r.level, name, a[r.parsed..] + b)
      else IsDriving(r.state) && r.parsed == |a| && Plan(st, level, name, a + b) == Plan(r.state, r.level, name, b)
    ensures var r := Drive(false, st, level, a);
      r.Stop? && r.parsed == 0 && a != [] ==> Stopped(false, st) && Stopped(false, r.state)
  {
    hide Drive, Valid, Act, Parse;
    if !Stopped(false, st) { StopIsAhead(false, st, level, a); }
    if Stopped(false, st) {
      StoppedStays(st, level, a);
      assert a[0..] == a;
    } else {
      ParseAdvance(st, level, name, a, b);
    }
  }

  lemma PlanNothing(st: State, level: nat, name: bytes)
    requires IsDriving(st) && (st.Data? ==> 0 < st.rem && st.size <= st.rem)
    ensures Plan(st, level, name, []) == Bad
  {
    hide Parse;
    if Drivable(st) { ParseNothing(st, level, name); }
  }

  // ---------- printing, then parsing ----------

  lemma {:induction false} ThenAppend(a: seq<NarEvent>, b: seq<NarEvent>, t: Trace)
    ensures Then(a + b, t) == Then(a, Then(b, t))
  {
    if a == [] {
      assert a + b == b;
    } else {
      assert (a + b)[1..] == a[1..] + b;
      ThenAppend(a[1..], b, t);
    }
  }

  /** A trace that ends well says all about the events that come out of it. */
  lemma {:induction false} ThenPrefix(a: seq<NarEvent>, p: Trace, b: seq<NarEvent>, rest: bytes)
    requires Then(a, p) == Then(b, Done(rest))
    ensures !p.Bad? && !p.Panic? && a <= b && (p.Done? ==> a == b && p.rest == rest)
  {
    if a != [] && b != [] {
      ThenPrefix(a[1..], p, b[1..], rest);
      assert a == [a[0]] + a[1..] && b == [b[0]] + b[1..];
    }
  }

  /** How the parser goes on behind a node with `level` directories open. */
  ghost function AfterNode(level: nat, k: bytes): Trace {
    AfterDirectory(level + 1, [], k)
  }

  lemma ParseToken(t: Token, level: nat, name: bytes, k: bytes)
    ensures Drivable(Expect(t, 0))
    ensures var next := After(t, level, []);
      if next.Eof? then Parse(Expect(t, 0), level, name, Word(t) + k) == Done(k)
      else Drivable(next) && Parse(Expect(t, 0), level, name, Word(t) + k) == Parse(next, level, name, k)
  {
    DrivableStates();
    hide Word, Alternatives, Parse;
    assert Word(t)[0..] == Word(t) && (Word(t) + k)[|Word(t)|..] == k;
    ParseStep(Expect(t, 0), level, name, Word(t) + k);
  }

  lemma ParseChoice(o: Options, t: bytes, level: nat, name: bytes, k: bytes)
    requires t in Alternatives<bytes>(o)
    ensures Drivable(Select(o, []))
    ensures var next := Alternatives<bytes>(o)[t];
      if next.Length? then Drivable(next) && Parse(Select(o, []), level, name, t + k) == Parse(next, level, name, k)
      else Stopped(false, next) &&
           Parse(Select(o, []), level, name, t + k) == Act(next, if next.ReadDir? then level + 1 else level, name, k)
  {
    AlternativesArePrefixFree<bytes>(o);
    DrivableStates();
    hide Word, Alternatives, Parse, Act, Look;
    LookMatched(Alternatives<bytes>(o), t, t + k);
    assert [] + (t + k) == t + k && (t + k)[|t|..] == k;
    ParseStep(Select(o, []), level, name, t + k);
  }

  lemma ParseString(w: What, level: nat, name: bytes, b: Blob, k: bytes)
    requires b.Ok()
    ensures Parse(Length(w, []), level, name, LE64(b.len) + (b.raw + k)) ==
            Act(Data(w, b.len, CalcAligned(b.len)), level, name, b.raw + k)
  {
    hide Word, Alternatives, Parse, Act, LE64, FromLE64, CalcAligned;
    var s := LE64(b.len) + (b.raw + k);
    assert ([] + s)[..8] == LE64(b.len) && s[8..] == b.raw + k;
    Word64(b.len, LE64(b.len));
    ParseStep(Length(w, []), level, name, s);
  }

  lemma AfterNodeIs(level: nat, k: bytes)
    ensures Drivable(Expect(FinishNode, 0))
    ensures Parse(Expect(FinishNode, 0), level, [], TokPar() + k) == AfterNode(level, k)
  {
    hide TokPar, Parse;
    ParseToken(FinishNode, level, [], k);
  }

  lemma {:induction false} ParseNode(n: Node<Blob>, level: nat, name: bytes, k: bytes)
    requires WellFormed(n, true)
    ensures Drivable(Select(NodeKinds, []))
    ensures Encodable(Plain(n))
    ensures Parse(Select(NodeKinds, []), level, name, Body(n, k)) == Then(Events(name, Plain(n)), AfterNode(level, k))
    decreases n
  {
    hide TokPar, TokDir, TokSym, TokFile, TokFileE, Parse, LE64, Alternatives, AfterNode, Drivable;
    DrivableStates();
    AlternativeValues<bytes>();
    AfterNodeIs(level, k);
    match n
    case Regular(x, c) =>
      ParseChoice(NodeKinds, TokRegular(x), level, name, LE64(c.len) + (c.raw + (TokPar() + k)));
      ParseString(Contents(RegularType(x)), level, name, c, TokPar() + k);
      var s := c.raw + (TokPar() + k);
      SkipAligned(c.len, s);
      assert s[CalcAligned(c.len)..] == TokPar() + k && s[..c.len] == c.Data();
    case Symlink(t) =>
      ParseChoice(NodeKinds, TokSym(), level, name, LE64(t.len) + (t.raw + (TokPar() + k)));
      ParseString(Contents(Link), level, name, t, TokPar() + k);
      var s := t.raw + (TokPar() + k);
      assert s[CalcAligned(t.len)..] == TokPar() + k && s[..t.len] == t.Data();
    case Directory(es) =>
      ParseChoice(NodeKinds, TokDir(), level, name, Items(es, TokPar() + k));
      ParseEntries(es, level + 1, k);
      var es' := EntryEvents(PlainEntries(es));
      assert [StartDirectory(name)] + es' + [EndDirectory] == [StartDirectory(name)] + (es' + [EndDirectory]);
      ThenAppend([StartDirectory(name)], es' + [EndDirectory], AfterNode(level, k));
  }

  lemma {:induction false} ParseEntries(es: Entries<Blob>, level: nat, k: bytes)
    requires WellFormedEntries(es, true) && level > 0
    ensures Drivable(Select(DirEntries, []))
    ensures EncodableEntries(PlainEntries(es))
    ensures Parse(Select(DirEntries, []), level, [], Items(es, TokPar() + k)) ==
            Then(EntryEvents(PlainEntries(es)) + [EndDirectory], AfterNode(level - 1, k))
    decreases es
  {
    hide TokPar, TokEntry, TokNode, Parse, LE64, Alternatives, Drivable, Body, Word;
    DrivableStates();
    AlternativeValues<bytes>();
    match es
    case Nil =>
      ParseChoice(DirEntries, TokPar(), level, [], k);
      assert EntryEvents(PlainEntries(es)) + [EndDirectory] == [EndDirectory];
    case Entry(name, node, rest) =>
      var s1 := Items(rest, TokPar() + k);
      var s2 := Body(node, TokPar() + s1);
      ParseChoice(DirEntries, TokEntry(), level, [], LE64(name.len) + (name.raw + (TokNode() + s2)));
      ParseString(EntryName, level, [], name, TokNode() + s2);
      EntryStart(name, level, s2);
      ParseNode(node, level, name.Data(), TokPar() + s1);
      EntryEnd(level, s1);
      ParseEntries(rest, level, k);
      var a, b := Events(name.Data(), Plain(node)), EntryEvents(PlainEntries(rest));
      assert a + b + [EndDirectory] == a + (b + [EndDirectory]);
      ThenAppend(a, b + [EndDirectory], AfterNode(level - 1, k));
  }

  lemma EntryStart(name: Blob, level: nat, s: bytes)
    requires name.Proper()
    ensures Drivable(Select(NodeKinds, []))
    ensures Act(Data(EntryName, name.len, CalcAligned(name.len)), level, [], name.raw + (TokNode() + s)) ==
            Parse(Select(NodeKinds, []), level, name.Data(), s)
  {
    hide TokNode, Parse;
    var r := name.raw + (TokNode() + s);
    assert r[CalcAligned(name.len)..] == TokNode() + s && r[..name.len] == name.Data();
    ParseToken(ReadNode, level, name.Data(), s);
  }

  lemma EntryEnd(level: nat, s: bytes)
    requires level > 0
    ensures Drivable(Select(DirEntries, []))
    ensures AfterNode(level, TokPar() + s) == Parse(Select(DirEntries, []), level, [], s)
  {
    hide TokPar, Parse;
    ParseToken(FinishEntry, level, [], s);
  }

  /** Parsing any derivation, whatever its padding and whatever follows it, gives the events of
      its tree and leaves what follows. */
  lemma ParsePrinted(n: Node<Blob>, rest: bytes)
    requires WellFormed(n, true)
    ensures Drivable(Start) && Encodable(Plain(n))
    ensures Parse(Start, 0, [], PrintRoot(n) + rest) == Then(Events([], Plain(n)), Done(rest))
  {
    hide Parse, PrintRoot, Body, TokRoot;
    PrintRootIsBody(n, rest);
    ParseToken(Root, 0, [], Body(n, rest));
    ParseNode(n, 0, [], rest);
  }

  /** The round trip of the format: encode, then parse. */
  lemma ParseEncoded(t: Node<bytes>, rest: bytes)
    requires Encodable(t)
    ensures Drivable(Start)
    ensures Parse(Start, 0, [], Encode(t) + rest) == Then(Events([], t), Done(rest))
  {
    hide Parse, PrintRoot;
    ParsePrinted(Concrete(t), rest);
  }
}
