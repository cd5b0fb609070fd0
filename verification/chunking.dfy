/** Chunk independence of `drive`: how the input is cut into buffers does not matter. */
module Chunking {
  import opened Wire
  import opened Choice
  import opened Machine

  /** How one iteration on `a + b` relates to the same iteration on `a`. */
  ghost predicate Chunked(p: bool, st: State, level: nat, a: bytes, b: bytes)
    requires Valid(st)
  {
    var r := Iter(p, st, level, a);
    if r.Break? && !Stopped(p, r.state)
    then Valid(r.state) && r.used == |a| && r.level == level
      && Iter(p, st, level, a + b) == Iter(p, r.state, level, b).Shift(|a|)
    else Iter(p, st, level, a + b) == r
  }

  lemma ExpectChunk(p: bool, st: State, level: nat, a: bytes, b: bytes)
    requires Valid(st) && st.Expect?
    ensures Chunked(p, st, level, a, b)
  {
    hide Word, Alternatives;
    var rem := Word(st.token)[st.read..];
    if a < rem {
      assert Word(st.token)[st.read + |a|..] == rem[|a|..];
      assert rem <= a + b <==> rem[|a|..] <= b;
      assert a + b <= rem <==> b <= rem[|a|..];
    }
  }

  lemma SelectChunk(p: bool, st: State, level: nat, a: bytes, b: bytes)
    requires Valid(st) && st.Select?
    ensures Chunked(p, st, level, a, b)
  {
    hide Word, Alternatives, Look;
    AlternativesArePrefixFree<bytes>(st.options);
    assert st.at + (a + b) == st.at + a + b;
    LookStable(Alternatives<bytes>(st.options), st.at + a, b);
  }

  lemma IterChunk(p: bool, st: State, level: nat, a: bytes, b: bytes)
    requires Valid(st)
    ensures Chunked(p, st, level, a, b)
  {
    hide Word, Alternatives, FromLE64, CalcAligned;
    match st
    case Expect(t, read) => ExpectChunk(p, st, level, a, b);
    case Select(o, at) => SelectChunk(p, st, level, a, b);
    case Length(w, got) =>
      assert got + (a + b) == got + a + b;
      assert |got| + |a| >= 8 ==> (got + (a + b))[..8] == (got + a)[..8];
    case _ =>
  }

  /** `whole` is what `first`, reached on `n` bytes, becomes when `b` follows. */
  ghost predicate Resumed(p: bool, first: Outcome, n: nat, b: bytes, whole: Outcome) {
    match first
    case Error => whole == Error
    case Stop(s, l, k) =>
      if Stopped(p, s) then whole == first
      else k == n && Valid(s) && whole == Drive(p, s, l, b).Shift(n)
  }

  lemma ResumedShift(p: bool, first: Outcome, n: nat, b: bytes, whole: Outcome, u: nat)
    requires Resumed(p, first, n, b, whole)
    ensures Resumed(p, first.Shift(u), n + u, b, whole.Shift(u))
  {
    hide Drive, Valid;
  }

  lemma DropAppend(a: bytes, b: bytes, k: nat)
    requires k <= |b|
    ensures (a + b)[k + |a|..] == b[k..]
  {}

  lemma ResumeIteration(p: bool, st: State, st': State, level: nat, a: bytes, b: bytes)
    requires Valid(st) && Valid(st')
    requires Iter(p, st, level, a + b) == Iter(p, st', level, b).Shift(|a|)
    ensures Drive(p, st, level, a + b) == Drive(p, st', level, b).Shift(|a|)
  {
    hide Iter, Valid, Drive;
    var r, r' := Iter(p, st', level, b), Iter(p, st, level, a + b);
    IterValid(p, st', level, b);
    if r.Continue? {
      assert r' == Continue(r.state, r.level, r.used + |a|);
      assert (a + b)[r'.used..] == b[r.used..] by { DropAppend(a, b, r.used); }
    }
    DriveStep(p, st, level, a + b);
    DriveStep(p, st', level, b);
  }

  /** Driving `a` then `b` is driving `a + b`: same state, level, total and verdict. Each call
      uses up its whole buffer unless it stops for its caller. */
  lemma {:induction false} DriveChunk(p: bool, st: State, level: nat, a: bytes, b: bytes)
    requires Valid(st)
    ensures Resumed(p, Drive(p, st, level, a), |a|, b, Drive(p, st, level, a + b))
    decreases |a|, Rank(st)
  {
    hide Iter, Valid, Drive;
    var r := Iter(p, st, level, a);
    if r.Continue? {
      IterValid(p, st, level, a);
      var rest := a[r.used..];
      DriveChunk(p, r.state, r.level, rest, b);
      ResumedShift(p, Drive(p, r.state, r.level, rest), |rest|, b, Drive(p, r.state, r.level, rest + b), r.used);
      DriveStep(p, st, level, a);
      DriveStep(p, st, level, a + b);
      IterChunk(p, st, level, a, b);
      assert (a + b)[r.used..] == rest + b;
    } else {
      DriveStep(p, st, level, a);
      DriveStep(p, st, level, a + b);
      IterValid(p, st, level, a);
      IterChunk(p, st, level, a, b);
      if r.Break? && !Stopped(p, r.state) { ResumeIteration(p, st, r.state, level, a, b); }
    }
  }

  /** From a settled state, a stop is at least one byte away. */
  lemma StopIsAhead(p: bool, st: State, level: nat, s: bytes)
    requires Valid(st) && Settled(st) && !Stopped(p, st)
    ensures var r := Drive(p, st, level, s); r.Stop? && Stopped(p, r.state) ==> r.parsed > 0
  {
    hide Word, Alternatives, FromLE64, CalcAligned, Look;
    DriveStep(p, st, level, s);
    IterValid(p, st, level, s);
  }

  /** The bytes that a call did not use do not matter. */
  lemma DriveUsed(p: bool, st: State, level: nat, s: bytes)
    requires Valid(st) && Drive(p, st, level, s).Stop?
    ensures var r := Drive(p, st, level, s); Drive(p, st, level, s[..r.parsed]) == r
  {
    hide Drive, Valid;
    var r := Drive(p, st, level, s);
    var a, b := s[..r.parsed], s[r.parsed..];
    assert a + b == s;
    DriveChunk(p, st, level, a, b);
    var x := Drive(p, st, level, a);
    if Stopped(p, r.state) {
      if !Stopped(p, x.state) { StopIsAhead(p, x.state, x.level, b); }
    } else {
      assert a == s;
    }
  }
}
