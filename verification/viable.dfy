/** The machine gives up as soon as it can: it fails exactly on byte strings that no NAR starts with,
    and that do not start with a NAR. */
module Viable {
  import opened Wire
  import opened Grammar
  import opened Choice
  import opened Machine
  import opened Chunking
  import opened Recogniser

  // ---------- every state can be brought to the end ----------

  /** Close `level` directories, the innermost of which waits for its next entry. */
  lemma {:induction false} CloseDirectories(level: nat) returns (k: bytes)
    ensures Valid(Select(DirEntries, [])) && Accept(Select(DirEntries, []), level, k)
    decreases level
  {
    hide Word, Drive, TokPar;
    AlternativeValues<bytes>();
    if level > 1 {
      var rest := CloseDirectories(level - 1);
      ExpectAccept(FinishEntry, level - 1, rest);
      k := Word(FinishEntry) + rest;
    } else {
      k := [];
      AcceptStep(Eof, level, k);
    }
    AcceptStep(FinishReadEntry, level, k);
    SelectAccept(DirEntries, TokPar(), level, k);
    k := TokPar() + k;
  }

  lemma AfterToken(t: Token, level: nat) returns (k: bytes)
    ensures Valid(After(t, level, [])) && Accept(After(t, level, []), level, k)
  {
    hide Word, Drive, TokDir, TokPar;
    AlternativeValues<bytes>();
    match t
    case FinishEntry => k := CloseDirectories(level);
    case FinishNode =>
      if level > 0 {
        k := CloseDirectories(level);
        ExpectAccept(FinishEntry, level, k);
        k := Word(FinishEntry) + k;
      } else {
        k := [];
        AcceptStep(Eof, level, k);
      }
    case _ =>
      k := CloseDirectories(level + 1);
      AcceptStep(ReadDir, level, k);
      SelectAccept(NodeKinds, TokDir(), level, k);
      k := TokDir() + k;
  }

  lemma EndToken(t: Token, read: nat, level: nat) returns (k: bytes)
    requires Valid(Expect(t, read))
    ensures Accept(Expect(t, read), level, k)
  {
    hide Word, Drive, Alternatives;
    k := AfterToken(t, level);
    var rem := Word(t)[read..];
    AcceptStep(Expect(t, read), level, rem + k);
    assert (rem + k)[|rem|..] == k;
    k := rem + k;
  }

  lemma EndData(w: What, size: u64, rem: u64, level: nat) returns (k: bytes)
    ensures Accept(Data(w, size, rem), level, k)
  {
    hide Word, Drive, Alternatives;
    k := EndToken(AfterData<bytes>(w).token, 0, level);
    AcceptStep(Data(w, size, rem), level, Zeros(rem) + k);
    assert (Zeros(rem) + k)[rem..] == k;
    k := Zeros(rem) + k;
  }

  lemma EndLength(w: What, got: bytes, level: nat) returns (k: bytes)
    requires Valid(Length(w, got))
    ensures Accept(Length(w, got), level, k)
  {
    hide Word, Drive, Alternatives, FromLE64, CalcAligned;
    var z := Zeros(8 - |got|);
    var len := FromLE64(got + z);
    k := EndData(w, len, CalcAligned(len), level);
    assert (got + (z + k))[..8] == got + z && (z + k)[8 - |got|..] == k;
    AcceptStep(Length(w, got), level, z + k);
    k := z + k;
  }

  /** From any state the machine can be brought to the end of a NAR. */
  lemma Completable(st: State, level: nat) returns (k: bytes)
    requires Valid(st)
    ensures Accept(st, level, k)
  {
    hide Word, Drive, Alternatives, FromLE64, CalcAligned, Look;
    match st
    case Expect(t, read) => k := EndToken(t, read, level);
    case Select(o, at) => k := EndChoice(o, at, level);
    case Length(w, got) => k := EndLength(w, got, level);
    case Data(w, size, rem) => k := EndData(w, size, rem, level);
    case ReadDir =>
      k := CloseDirectories(level + 1);
      AcceptStep(st, level, k);
    case FinishReadEntry =>
      k := EndDirectory(level);
    case Eof =>
      k := [];
      AcceptStep(st, level, k);
  }

  lemma EndDirectory(level: nat) returns (k: bytes)
    ensures Accept(FinishReadEntry, level, k)
  {
    hide Word, Drive, Alternatives;
    if level > 1 {
      k := EndToken(FinishEntry, 0, level - 1);
    } else {
      k := [];
      AcceptStep(Eof, level, k);
    }
    AcceptStep(FinishReadEntry, level, k);
  }

  lemma EndChoice(o: Options, at: bytes, level: nat) returns (k: bytes)
    requires Valid(Select(o, at))
    ensures Accept(Select(o, at), level, k)
  {
    hide Word, Drive, Alternatives, Look;
    AlternativesArePrefixFree<bytes>(o);
    var m := Alternatives<bytes>(o);
    var t :| t in m && at < t;
    var st := m[t];
    if st.ReadDir? {
      k := CloseDirectories(level + 1);
      AcceptStep(st, level, k);
    } else if st.FinishReadEntry? {
      k := EndDirectory(level);
    } else {
      k := EndLength(st.what, [], level);
    }
    var rem := t[|at|..];
    assert at + (rem + k) == t + k && (rem + k)[|rem|..] == k;
    LookMatched(m, t, t + k);
    AcceptStep(Select(o, at), level, rem + k);
    k := rem + k;
  }

  // ---------- failing at once ----------

  /** A NAR starts with `s`, or `s` with a NAR. */
  ghost predicate Promising(s: bytes) { exists t :: Derives(t) && (s <= t || t <= s) }

  /** The machine fails exactly when there is no hope left: at the first byte that no NAR has there. */
  lemma FailsAtOnce(s: bytes)
    ensures Valid(Start)
    ensures Drive(true, Start, 0, s).Error? <==> !Promising(s)
  {
    hide Drive, Valid, Word, Derives;
    RecogniserIsGrammar(s);
    if Drive(true, Start, 0, s).Stop? { var t := Extension(s); }
    if t :| Derives(t) && (s <= t || t <= s) {
      if s <= t { StartGoesOn(s, t); } else { StartGoesOn(t, s); }
    }
  }

  /** Of two byte strings, one the start of the other, neither fails if one is a NAR. */
  lemma StartGoesOn(s: bytes, t: bytes)
    requires s <= t && (Derives(s) || Derives(t))
    ensures Valid(Start) && Drive(true, Start, 0, s).Stop? && (Derives(s) ==> Drive(true, Start, 0, t).Stop?)
  {
    hide Drive, Valid, Word, Derives;
    RecogniserIsGrammar(s);
    RecogniserIsGrammar(t);
    assert t == s + t[|s|..];
    DriveChunk(true, Start, 0, s, t[|s|..]);
  }

  lemma Extension(s: bytes) returns (t: bytes)
    requires Valid(Start) && Drive(true, Start, 0, s).Stop?
    ensures Derives(t) && (s <= t || t <= s)
  {
    hide Drive, Valid, Word, Derives;
    var r := Drive(true, Start, 0, s);
    if r.state.Eof? {
      DriveUsed(true, Start, 0, s);
      t := s[..r.parsed];
    } else {
      var k := Completable(r.state, r.level);
      DriveChunk(true, Start, 0, s, k);
      t := s + k;
    }
    RecogniserIsGrammar(t);
  }
}
