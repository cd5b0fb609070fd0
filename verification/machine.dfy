/** `Inner::drive` as a function: one iteration of its loop, and the loop. */
module Machine {
  import opened Wire
  import opened Grammar
  import opened Choice

  datatype NodeType = File | ExecutableFile | Link

  /** The fixed tokens that are compared byte by byte. */
  datatype Token = Root | FinishNode | FinishEntry | ReadNode

  /** The two choices between tokens. */
  datatype Options = NodeKinds | DirEntries

  /** The two kinds of length-prefixed strings. */
  datatype What = Contents(nodeType: NodeType) | EntryName

  /** The thirteen states of `InnerState`, grouped by what they wait for: a token, a choice,
      a length word or the aligned bytes of a string. `L` is the type of positions inside a
      choice. Of the eight-byte array of a length word only the bytes read so far are kept. */
  datatype InnerState<L> =
    | Expect(token: Token, read: nat)
    | Select(options: Options, at: L)
    | Length(what: What, got: bytes)
    | Data(what: What, size: u64, rem: u64)
    | ReadDir
    | FinishReadEntry
    | Eof

  /** In the specification, a choice is at the bytes that it has matched so far. */
  type State = InnerState<bytes>

  const Start: State := Expect(Root, 0)

  function WordLen(t: Token): nat {
    match t
    case Root => 56
    case ReadNode => 48
    case _ => 16
  }

  function Word(t: Token): (w: bytes)
    ensures |w| == WordLen(t)
  {
    TokenLengths();
    hide Str;
    match t
    case Root => TokRoot()
    case ReadNode => TokNode()
    case FinishNode => TokPar()
    case FinishEntry => TokPar()
  }

  function RegularType(x: bool): NodeType { if x then ExecutableFile else File }

  /** `NODE_SELECT` and `ENTRY_SELECT` as maps. */
  function Alternatives<L>(o: Options): map<bytes, InnerState<L>> {
    match o
    case NodeKinds =>
      map[TokDir() := ReadDir,
          TokSym() := Length(Contents(Link), []),
          TokFile() := Length(Contents(File), []),
          TokFileE() := Length(Contents(ExecutableFile), [])]
    case DirEntries =>
      map[TokEntry() := Length(EntryName, []), TokPar() := FinishReadEntry]
  }

  lemma AlternativesArePrefixFree<L>(o: Options)
    ensures PrefixFree(Alternatives<L>(o)) && Open(Alternatives<L>(o), [])
    ensures forall t :: t in Alternatives<L>(o) ==>
      var s := Alternatives<L>(o)[t]; s.ReadDir? || s.FinishReadEntry? || (s.Length? && s.got == [])
  {
    TokenLengths();
    TokenForks();
    hide Str, TokDir, TokSym, TokFile, TokFileE, TokEntry, TokPar;
    assert [] < TokDir() && TokDir() in Alternatives<L>(NodeKinds);
    assert [] < TokPar() && TokPar() in Alternatives<L>(DirEntries);
  }

  lemma AlternativeValues<L>()
    ensures var m := Alternatives<L>(NodeKinds);
      && TokDir() in m && m[TokDir()] == ReadDir
      && TokSym() in m && m[TokSym()] == Length(Contents(Link), [])
      && forall x :: TokRegular(x) in m && m[TokRegular(x)] == Length(Contents(RegularType(x)), [])
    ensures var m := Alternatives<L>(DirEntries);
      && TokEntry() in m && m[TokEntry()] == Length(EntryName, [])
      && TokPar() in m && m[TokPar()] == FinishReadEntry
  {
    TokenLengths();
    TokenForks();
    hide Str, TokDir, TokSym, TokFile, TokFileE, TokEntry, TokPar;
  }

  /** What every state stored between calls satisfies: something is still to be read, and in
      particular a choice is never at a complete token. */
  ghost predicate Valid(st: State) {
    match st
    case Expect(t, read) => read < WordLen(t)
    case Select(o, at) => Open(Alternatives<bytes>(o), at)
    case Length(_, got) => |got| < 8
    case _ => true
  }

  /** The states in which a call returns before the end of its buffer: the end of the NAR and,
      for the parser (`p` false), everything that its caller must see. */
  predicate Stopped<L>(p: bool, st: InnerState<L>) {
    st.Eof? || (!p && (st.Data? || st.ReadDir? || st.FinishReadEntry?))
  }

  /** What a call that skips contents leaves behind: a state that needs a byte to go on. */
  predicate Settled<L>(st: InnerState<L>) {
    !st.ReadDir? && !st.FinishReadEntry? && (st.Data? ==> st.rem > 0)
  }

  /** What follows a complete token. */
  function After<L>(t: Token, level: nat, start: L): InnerState<L> {
    match t
    case FinishNode => if level > 0 then Expect(FinishEntry, 0) else Eof
    case FinishEntry => Select(DirEntries, start)
    case _ => Select(NodeKinds, start)
  }

  /** What follows the bytes of a string. */
  function AfterData<L>(w: What): InnerState<L> {
    if w.EntryName? then Expect(ReadNode, 0) else Expect(FinishNode, 0)
  }

  /** What follows the end of a directory. */
  function Close<L>(level: nat): (InnerState<L>, nat) {
    if level > 1 then (Expect(FinishEntry, 0), level - 1) else (Eof, level)
  }

  function Rank<L>(st: InnerState<L>): nat {
    if st.Data? || st.ReadDir? || st.FinishReadEntry? then 1 else 0
  }

  datatype Iteration =
    | Fail
    | Break(state: State, level: nat, used: nat)
    | Continue(state: State, level: nat, used: nat)
  {
    function Shift(n: nat): Iteration {
      match this
      case Fail => Fail
      case Break(s, l, u) => Break(s, l, u + n)
      case Continue(s, l, u) => Continue(s, l, u + n)
    }
  }

  /** The iteration for a choice between the tokens of `m`, with `at` already read. */
  ghost function Choose(o: Options, m: map<bytes, State>, at: bytes, level: nat, buf: bytes): Iteration
    requires PrefixFree(m) && Open(m, at)
  {
    match Look(m, at + buf)
    case Matched(t) => LookOpen(m, at, at + buf); Continue(m[t], level, |t| - |at|)
    case NeedsMore => Break(Select(o, at + buf), level, |buf|)
    case Mismatch => Fail
  }

  /** One iteration of the loop in `drive`, on the rest of the buffer. */
  ghost function Iter(p: bool, st: State, level: nat, buf: bytes): Iteration
    requires Valid(st)
  {
    match st
    case Expect(t, read) =>
      var rem := Word(t)[read..];
      if rem <= buf then Continue(After(t, level, []), level, |rem|)
      else if buf <= rem then Break(Expect(t, read + |buf|), level, |buf|)
      else Fail
    case Select(o, at) =>
      AlternativesArePrefixFree<bytes>(o);
      Choose(o, Alternatives<bytes>(o), at, level, buf)
    case Length(w, got) =>
      if |got| + |buf| < 8 then Break(Length(w, got + buf), level, |buf|)
      else
        var len := FromLE64((got + buf)[..8]);
        Continue(Data(w, len, CalcAligned(len)), level, 8 - |got|)
    case Data(w, size, rem) =>
      if !p then Break(st, level, 0)
      else if |buf| < rem then Break(Data(w, size, rem - |buf|), level, |buf|)
      else Continue(AfterData(w), level, rem)
    case ReadDir =>
      if !p then Break(st, level + 1, 0) else Continue(Select(DirEntries, []), level + 1, 0)
    case FinishReadEntry =>
      if !p then Break(st, level, 0) else Continue(Close<bytes>(level).0, Close<bytes>(level).1, 0)
    case Eof => Break(st, level, 0)
  }

  lemma IterValid(p: bool, st: State, level: nat, buf: bytes)
    requires Valid(st)
    ensures var r := Iter(p, st, level, buf);
      r.Fail? ||
      (Valid(r.state) && r.used <= |buf| && (r.Continue? ==> r.used > 0 || Rank(r.state) < Rank(st)))
    ensures var r := Iter(p, st, level, buf); r.Break? && !Stopped(p, r.state) ==> r.used == |buf|
    ensures var r := Iter(p, st, level, buf); p && r.Break? ==> Settled(r.state)
    ensures var r := Iter(p, st, level, buf); r.Continue? && Settled(st) ==> r.used > 0
  {
    hide Word, Alternatives, FromLE64, CalcAligned, Look;
    AlternativesArePrefixFree<bytes>(NodeKinds);
    AlternativesArePrefixFree<bytes>(DirEntries);
    if st.Select? {
      AlternativesArePrefixFree<bytes>(st.options);
      LookOpen(Alternatives<bytes>(st.options), st.at, st.at + buf);
    }
  }

  datatype Outcome = Error | Stop(state: State, level: nat, parsed: nat) {
    function Shift(n: nat): Outcome {
      match this
      case Error => Error
      case Stop(s, l, k) => Stop(s, l, k + n)
    }
  }

  /** `drive`: iterate until the buffer is used up, the caller must act, or the input is bad. */
  ghost function Drive(p: bool, st: State, level: nat, buf: bytes): (r: Outcome)
    requires Valid(st)
    ensures r.Stop? ==> Valid(r.state) && r.parsed <= |buf|
    ensures r.Stop? && !Stopped(p, r.state) ==> r.parsed == |buf|
    ensures r.Stop? && p ==> Settled(r.state)
    decreases |buf|, Rank(st)
  {
    IterValid(p, st, level, buf);
    hide Iter, Valid;
    match Iter(p, st, level, buf)
    case Fail => Error
    case Break(s, l, u) => Stop(s, l, u)
    case Continue(s, l, u) => Drive(p, s, l, buf[u..]).Shift(u)
  }

  /** The definition of `Drive`, one iteration at a time. */
  lemma DriveStep(p: bool, st: State, level: nat, buf: bytes)
    requires Valid(st)
    ensures var r := Iter(p, st, level, buf);
      && (r.Fail? ==> Drive(p, st, level, buf) == Error)
      && (r.Break? ==> Drive(p, st, level, buf) == Stop(r.state, r.level, r.used))
      && (r.Continue? ==>
            && r.used <= |buf| && Valid(r.state)
            && Drive(p, st, level, buf) == Drive(p, r.state, r.level, buf[r.used..]).Shift(r.used))
  {
    hide Iter, Valid;
    IterValid(p, st, level, buf);
  }
}
