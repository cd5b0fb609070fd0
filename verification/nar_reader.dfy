/** `NarReader` and `NarBytesReader`: hand out exactly one NAR of a longer stream. */
module NarReaders {
  import opened Wire
  import opened Streams
  import M = Machine
  import opened Chunking
  import opened NarMachine

  ghost function FromStart(s: bytes): M.Outcome {
    M.Drive(true, M.Start, 0, s)
  }

  ghost predicate EndsAfter(r: M.Outcome, len: nat) { r.Stop? && r.state == M.Eof && r.parsed == len }

  /** The machine ends after exactly `len` bytes of `s`: `s` starts with a NAR. (A quantifier, so
      that it is unfolded only where `EndsAfter` is asked for.) */
  ghost predicate Delimits(s: bytes, len: nat) { forall r | r == FromStart(s) :: EndsAfter(r, len) }

  /** There is at most one such NAR, and it is in the stream. */
  lemma DelimitsOnce(s: bytes, a: nat, b: nat)
    requires Delimits(s, a)
    ensures a <= |s| && (Delimits(s, b) ==> a == b)
  {
    hide M.Iter, M.Valid, M.Word;
    assert EndsAfter(FromStart(s), a);
    if Delimits(s, b) { assert EndsAfter(FromStart(s), b); }
  }

  /** All of `a` was used, and has brought the machine to `st` and `level`. */
  ghost predicate Reached(a: bytes, st: M.State, level: nat) {
    FromStart(a) == M.Stop(st, level, |a|)
  }

  lemma NothingRead()
    ensures Reached([], M.Start, 0)
  {
    M.DriveStep(true, M.Start, 0, []);
    hide M.Word;
  }

  lemma ReachedValid(a: bytes, st: M.State, level: nat)
    requires Reached(a, st, level)
    ensures M.Valid(st) && M.Settled(st)
  {
    hide M.Word;
  }

  lemma EofStays(level: nat, s: bytes)
    ensures M.Drive(true, M.Eof, level, s) == M.Stop(M.Eof, level, 0)
  {
    M.DriveStep(true, M.Eof, level, s);
  }

  /** Where a partly driven stream stands with respect to its NAR. */
  lemma Standing(a: bytes, b: bytes, st: M.State, level: nat, len: nat)
    requires Reached(a, st, level)
    ensures st.Eof? ==> Delimits(a + b, |a|)
    ensures Delimits(a + b, len) ==> |a| <= len <= |a + b| && (st.Eof? <==> |a| == len)
  {
    DriveChunk(true, M.Start, 0, a, b);
    ReachedValid(a, st, level);
    hide M.Drive, M.Valid, M.Word;
    assert Delimits(a + b, len) <==> EndsAfter(FromStart(a + b), len);
    if !st.Eof? { StopIsAhead(true, st, level, b); }
  }

  /** One more call of `drive` brings the machine further. */
  lemma ReachFurther(a: bytes, st: M.State, level: nat, piece: bytes)
    requires Reached(a, st, level) && M.Valid(st) && M.Drive(true, st, level, piece).Stop?
    ensures var r := M.Drive(true, st, level, piece);
      Reached(a + piece[..r.parsed], r.state, r.level) && (r.state.Eof? || r.parsed == |piece|)
  {
    hide M.Drive, M.Word, M.Alternatives;
    var r := M.Drive(true, st, level, piece);
    var x := piece[..r.parsed];
    if st.Eof? {
      EofStays(level, piece);
      assert a + x == a;
    } else {
      DriveUsed(true, st, level, piece);
      DriveChunk(true, M.Start, 0, a, x);
    }
  }

  /** It fails only if the stream does not start with a NAR at all. */
  lemma ReachError(a: bytes, st: M.State, level: nat, piece: bytes, b: bytes, len: nat)
    requires Reached(a, st, level) && M.Valid(st) && M.Drive(true, st, level, piece).Error?
    ensures !Delimits(a + piece + b, len)
  {
    assert Delimits(a + piece + b, len) ==> EndsAfter(FromStart(a + piece + b), len);
    if st.Eof? {
      EofStays(level, piece);
    } else {
      DriveChunk(true, M.Start, 0, a, piece);
      DriveChunk(true, M.Start, 0, a + piece, b);
      hide M.Drive, M.Valid, M.Word;
    }
  }

  class NarReader {
    const source: Source
    const state: Inner
    var parsed: nat
    ghost const start: nat
    /** What the reader was made on: a NAR and whatever follows it. */
    ghost const stream: bytes

    /** (The last clause is a quantifier so that it is unfolded only where `Reached` is asked for.) */
    ghost predicate Valid()
      reads this, source, state, state.nodeSelect, state.entrySelect
    {
      && source.Valid() && state.Valid() && state.p
      && start <= source.pos && start <= |source.data| && stream == source.data[start..]
      && parsed <= source.visible
      && forall a | a == source.data[start..source.pos + parsed] :: Reached(a, state.spec, state.level)
    }

    constructor (source: Source)
      requires source.Valid()
      ensures Valid() && this.source == source && start == source.pos && stream == source.Rest() && parsed == 0
      ensures fresh(state) && fresh(state.nodeSelect) && fresh(state.entrySelect)
    {
      hide Reached, Delimits, Inner.Valid;
      this.source, start, stream, parsed := source, source.pos, source.data[source.pos..], 0;
      state := new Inner(true);
      new;
      NothingRead();
      assert source.data[start..start] == [];
    }

    lemma Position(len: nat)
      requires Valid() && Delimits(stream, len)
      ensures source.pos + parsed <= start + len <= |source.data|
      ensures state.state.Eof? <==> source.pos + parsed == start + len
    {
      hide Reached, Delimits, FromStart, Inner.Valid;
      var a, b := source.data[start..source.pos + parsed], source.data[source.pos + parsed..];
      assert Reached(a, state.spec, state.level);
      assert a + b == stream;
      Standing(a, b, state.spec, state.level, len);
      state.Kind();
    }

    /** At the end of the NAR. */
    lemma AtEof()
      requires Valid() && state.state.Eof?
      ensures start <= source.pos + parsed && Delimits(stream, source.pos + parsed - start)
    {
      hide Reached, Delimits, FromStart, Inner.Valid;
      var a, b := source.data[start..source.pos + parsed], source.data[source.pos + parsed..];
      assert Reached(a, state.spec, state.level);
      assert a + b == stream;
      Standing(a, b, state.spec, state.level, 0);
      state.Kind();
    }

    /** Drive the machine over what has become visible. */
    method Advance(piece: bytes) returns (failed: bool)
      requires Valid() && parsed + |piece| <= source.visible
      requires piece == source.data[source.pos + parsed..source.pos + parsed + |piece|]
      modifies this, state
      ensures failed ==> forall len: nat :: !Delimits(stream, len)
      ensures !failed ==> Valid() && old(parsed) <= parsed <= old(parsed) + |piece|
      ensures !failed ==> state.state.Eof? || parsed == old(parsed) + |piece|
    {
      hide Reached, Delimits, Inner.Valid, M.Drive, M.Valid, M.Settled;
      ghost var a, st, l := source.data[start..source.pos + parsed], state.spec, state.level;
      assert Reached(a, st, l);
      var d := state.Drive(piece);
      if d.Err? {
        ghost var b := source.data[source.pos + parsed + |piece|..];
        assert a + piece + b == stream;
        forall len: nat
          ensures !Delimits(stream, len)
        {
          ReachError(a, st, l, piece, b, len);
        }
        return true;
      }
      ReachFurther(a, st, l, piece);
      parsed := parsed + d.value;
      assert source.data[start..source.pos + parsed] == a + piece[..d.value];
      failed := false;
    }

    /** `poll_fill_buf`: only bytes of the NAR, and none exactly when all of it was consumed. */
    method PollFillBuf() returns (r: Poll<Result<bytes>>)
      requires Valid()
      modifies this, state, source`visible, source`waits
      ensures source.Valid() && source.pos == old(source.pos) && Spent(old(source.waits), source.waits, r.Pending?)
      ensures r != Ready(Err) ==> Valid()
      ensures r.Ready? && r.value.Ok? ==>
        source.pos + parsed <= |source.data| && r.value.value == source.data[source.pos..source.pos + parsed]
      ensures r.Ready? && r.value.Ok? && r.value.value == [] ==>
        start <= source.pos && Delimits(stream, source.pos - start)
      ensures forall len: nat | Delimits(stream, len) ::
        && r != Ready(Err) && source.pos + parsed <= start + len
        && (r.Ready? ==> (r.value.value == [] <==> source.pos == start + len))
    {
      hide Reached, Delimits, Inner.Valid, Driven, M.Drive, M.Valid, M.Settled;
      r := Fill();
      if r.Ready? && r.value.Ok? && parsed == 0 { AtEof(); }
      forall len: nat | Delimits(stream, len)
        ensures r != Ready(Err) && source.pos + parsed <= start + len
        ensures r.Ready? ==> (r.value.value == [] <==> source.pos == start + len)
      {
        if r != Ready(Err) { Position(len); }
      }
    }

    method Fill() returns (r: Poll<Result<bytes>>)
      requires Valid()
      modifies this, state, source`visible, source`waits
      ensures source.Valid() && source.pos == old(source.pos) && Spent(old(source.waits), source.waits, r.Pending?)
      ensures r == Ready(Err) ==> forall len: nat :: !Delimits(stream, len)
      ensures r != Ready(Err) ==> Valid()
      ensures r.Ready? && r.value.Ok? ==>
        source.pos + parsed <= |source.data| && r.value.value == source.data[source.pos..source.pos + parsed]
      ensures r.Ready? && r.value.Ok? && parsed == 0 ==> state.state.Eof?
    {
      hide Reached, Delimits, Inner.Valid, Driven, M.Drive, M.Valid, M.Settled;
      if parsed == 0 && state.state.Eof? {
        return Ready(Ok([]));
      }
      var f := source.PollFillBuf();
      if f.Pending? {
        return Pending;
      }
      var buf := f.value;
      if |buf| > parsed {
        var failed := Advance(buf[parsed..]);
        if failed {
          return Ready(Err);
        }
      }
      if buf == [] && !state.state.Eof? {
        forall len: nat
          ensures !Delimits(stream, len)
        {
          if Delimits(stream, len) { Position(len); }
        }
        return Ready(Err);
      }
      assert buf[..parsed] == source.data[source.pos..source.pos + parsed];
      return Ready(Ok(buf[..parsed]));
    }

    method Consume(amt: nat)
      requires Valid() && amt <= parsed
      modifies this`parsed, source`pos, source`visible
      ensures Valid() && source.pos == old(source.pos) + amt && parsed == old(parsed) - amt
    {
      hide Reached, Delimits, Inner.Valid;
      assert Reached(source.data[start..source.pos + parsed], state.spec, state.level);
      source.Consume(amt);
      parsed := parsed - amt;
    }

    /** `poll_drain`: when it is done, the stream stands right behind the NAR. */
    method PollDrain() returns (r: Poll<Result<()>>)
      requires Valid()
      modifies this, state, source
      ensures source.Valid() && source.pos >= old(source.pos) && Spent(old(source.waits), source.waits, r.Pending?)
      ensures r != Ready(Err) ==> Valid()
      ensures r.Ready? && r.value.Ok? ==> start <= source.pos && Delimits(stream, source.pos - start)
      ensures forall len: nat | Delimits(stream, len) :: r != Ready(Err) && (r.Ready? ==> source.pos == start + len)
    {
      hide Reached, Delimits, Inner.Valid;
      while true
        invariant Valid() && source.pos >= old(source.pos) && source.waits <= old(source.waits)
        decreases |source.data| - source.pos
      {
        var f := PollFillBuf();
        if f.Pending? {
          return Pending;
        }
        if f.value.Err? {
          return Ready(Err);
        }
        if f.value.value == [] {
          return Ready(Ok(()));
        }
        Consume(|f.value.value|);
      }
    }
  }
}
