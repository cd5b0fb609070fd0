/** `TryReadU64` and `TryReadBytesLimited`: length words and length-prefixed strings. */
module Limited {
  import opened Wire
  import opened Streams
  import opened Grammar

  /** What there is at the start of a stream. */
  datatype Decoded = End | Invalid | Found(value: bytes, rest: bytes)

  /** Decoding, on the whole stream at once. */
  function Decode(low: nat, high: nat, s: bytes): Decoded {
    if s == [] then End
    else if |s| < 8 then Invalid
    else
      var len := FromLE64(s[..8]);
      if !(low <= len <= high) || len > MAX_LEN then Invalid
      else
        var aligned := CalcAligned(len);
        if |s| - 8 < aligned then Invalid
        else if s[8 + len..8 + aligned] != Zeros(aligned - len) then Invalid
        else Found(s[8..8 + len], s[8 + aligned..])
  }

  /** Decoding inverts `put_nix_slice`, whatever follows. */
  lemma DecodeEncoded(low: nat, high: nat, b: bytes, rest: bytes)
    requires Fits(b)
    ensures Decode(low, high, Pack(b).Print() + rest) == if low <= |b| <= high then Found(b, rest) else Invalid
  {
    hide LE64, FromLE64;
    var n, a := |b|, CalcAligned(|b|);
    var w, z := LE64(n), Zeros(CalcPadding(n));
    var s := Pack(b).Print() + rest;
    assert s == w + (b + z) + rest;
    assert s[..8] == w;
    Word64(n, w);
    assert s[8..8 + n] == b;
    assert s[8 + n..8 + a] == z;
    assert s[8 + a..] == rest;
  }

  /** Every string has one encoding: what was decoded is what encoding the result gives. */
  lemma DecodeCanonical(low: nat, high: nat, s: bytes)
    requires Decode(low, high, s).Found?
    ensures var d := Decode(low, high, s);
      Fits(d.value) && low <= |d.value| <= high && s == Pack(d.value).Print() + d.rest
  {
    hide LE64, FromLE64;
    var w := s[..8];
    var len := FromLE64(w);
    var aligned := CalcAligned(len);
    Word64(len, w);
    assert s == w + (s[8..8 + len] + s[8 + len..8 + aligned]) + s[8 + aligned..];
  }

  /** The two together: exactly the encodings of strings of allowed length are accepted. */
  lemma DecodeIff(low: nat, high: nat, s: bytes, b: bytes, rest: bytes)
    ensures Decode(low, high, s) == Found(b, rest) <==>
            Fits(b) && low <= |b| <= high && s == Pack(b).Print() + rest
  {
    hide Decode, Pack;
    if Decode(low, high, s) == Found(b, rest) { DecodeCanonical(low, high, s); }
    if Fits(b) { DecodeEncoded(low, high, b, rest); }
  }

  /** The start of a stream is the encoding of some string of allowed length. */
  ghost predicate Starts(low: nat, high: nat, s: bytes) {
    exists b: bytes, rest: bytes :: Fits(b) && low <= |b| <= high && s == Pack(b).Print() + rest
  }

  /** An end is told only at the very end of a stream; whatever else is not found is an error. */
  lemma DecodeOtherwise(low: nat, high: nat, s: bytes)
    ensures Decode(low, high, s) == End <==> s == []
    ensures Decode(low, high, s) == Invalid <==> s != [] && !Starts(low, high, s)
  {
    hide Pack, FromLE64;
    assert Decode(low, high, s) == End <==> s == [];
    hide Decode;
    if Decode(low, high, s).Found? { DecodeCanonical(low, high, s); }
    if Starts(low, high, s) {
      var b, rest :| Fits(b) && low <= |b| <= high && s == Pack(b).Print() + rest;
      DecodeEncoded(low, high, b, rest);
    }
  }

  /** Decoding a string of which the length was found to be good. */
  lemma DecodeWhole(low: nat, high: nat, data: bytes, first: nat, len: nat, aligned: nat)
    requires first + 8 <= |data| && FromLE64(data[first..first + 8]) == len <= MAX_LEN
    requires aligned == CalcAligned(len) && low <= len <= high
    ensures var d := Decode(low, high, data[first..]);
      if |data| < first + 8 + aligned then d == Invalid
      else
        var c := data[first + 8..first + 8 + aligned];
        d == if c[len..] == Zeros(aligned - len) then Found(c[..len], data[first + 8 + aligned..]) else Invalid
  {
    hide FromLE64, CalcAligned;
    var s := data[first..];
    assert s[..8] == data[first..first + 8];
    if |data| >= first + 8 + aligned {
      Windows(data, first, 8, 8 + len, 8 + aligned);
    }
  }

  lemma Windows(data: bytes, first: nat, a: nat, b: nat, c: nat)
    requires a <= b <= c && first + c <= |data|
    ensures var s, w := data[first..], data[first + a..first + c];
      s[a..b] == w[..b - a] && s[b..c] == w[b - a..] && s[c..] == data[first + c..]
  {}

  lemma Start(data: bytes, from: nat, buf: bytes, n: nat)
    requires from + |buf| <= |data| && n <= |buf| && buf == data[from..from + |buf|]
    ensures buf[..n] == data[from..from + n]
  {}

  class TryReadU64 {
    var buf: bytes
    var read: nat
    ghost const first: nat

    /** The bytes read so far are those behind `first`. */
    ghost predicate Valid(source: Source)
      reads this, source
    {
      && source.Valid() && |buf| == 8 && read <= 8 && first + read == source.pos
      && forall i | 0 <= i < read :: buf[i] == source.data[first + i]
    }

    constructor (ghost first: nat)
      ensures this.first == first && read == 0 && |buf| == 8
    {
      buf, read := Zeros(8), 0;
      this.first := first;
    }

    /** `poll_reader`: a word, or nothing at the end of the stream. */
    method PollReader(source: Source) returns (r: Poll<Result<Option<u64>>>)
      requires Valid(source)
      modifies this, source
      ensures source.Valid() && Spent(old(source.waits), source.waits, r.Pending?)
      ensures r.Pending? ==> Valid(source)
      ensures r == Ready(Err) ==> first < |source.data| < first + 8
      ensures r == Ready(Ok(None)) ==> first == source.pos == |source.data|
      ensures r.Ready? && r.value.Ok? && r.value.value.Some? ==>
        source.pos == first + 8 && r.value.value.value == FromLE64(source.data[first..first + 8])
    {
      while read < 8
        invariant Valid(source) && source.waits <= old(source.waits)
        decreases 8 - read
      {
        var f := source.PollRead(8 - read);
        if f.Pending? {
          return Pending;
        }
        if f.value == [] {
          return Ready(if read == 0 then Ok(None) else Err);
        }
        var to := read + |f.value|;
        buf := buf[..read] + f.value + buf[to..];
        read := to;
      }
      assert buf == source.data[first..first + 8];
      return Ready(Ok(Some(FromLE64(buf))));
    }
  }

  datatype State = ReadLen(word: TryReadU64) | Fill(len: nat, aligned: nat) | Done

  class TryReadBytesLimited {
    const low: nat
    const high: nat
    var state: State
    ghost const first: nat

    ghost function Repr(): set<object>
      reads this
    {
      if state.ReadLen? then {this, state.word} else {this}
    }

    ghost predicate Valid(source: Source)
      reads this, Repr(), source
    {
      source.Valid() && first <= source.pos &&
      match state
      case ReadLen(word) => word.first == first && word.Valid(source)
      case Fill(len, aligned) =>
        && source.pos == first + 8 && FromLE64(source.data[first..first + 8]) == len <= MAX_LEN
        && aligned == CalcAligned(len) > 0 && low <= len <= high
      case Done => false
    }

    constructor (low: nat, high: nat, source: Source)
      requires source.Valid()
      ensures Valid(source) && this.low == low && this.high == high && first == source.pos && fresh(Repr())
    {
      var word := new TryReadU64(source.pos);
      this.low, this.high, state := low, high, ReadLen(word);
      first := source.pos;
    }

    /** The result of a poll agrees with what there was in the stream. */
    ghost predicate Agrees(d: Decoded, r: Result<Option<bytes>>, rest: bytes) {
      match r
      case Err => d == Invalid
      case Ok(None) => d == End
      case Ok(Some(b)) => d == Found(b, rest)
    }

    /** What the caller is told of the bytes behind `first`: nothing at the very end, a string that
        is encoded there, or an error. */
    ghost predicate Tells(s: bytes, r: Result<Option<bytes>>) {
      && (r == Ok(None) <==> s == [])
      && (r == Err <==> s != [] && !Starts(low, high, s))
    }

    /** The first state: read the length, and check it. */
    method PollLength(source: Source) returns (r: Poll<Result<Option<bytes>>>)
      requires Valid(source) && state.ReadLen?
      modifies Repr(), source
      ensures source.Valid() && Spent(old(source.waits), source.waits, r.Pending? && !state.Fill?)
      ensures r.Pending? ==> Valid(source) && (state == old(state) || state.Fill?)
      ensures r.Ready? ==> Agrees(Decode(low, high, source.data[first..]), r.value, source.Rest())
      ensures r == Ready(Ok(None)) <==> r.Ready? && first == |source.data|
      ensures fresh(Repr() - old(Repr()))
    {
      hide FromLE64;
      var n := state.word.PollReader(source);
      ghost var s := source.data[first..];
      if n.Pending? {
        return Pending;
      }
      if n.value.Err? {
        return Ready(Err);
      }
      if n.value.value.None? {
        state := Done;
        return Ready(Ok(None));
      }
      var len := n.value.value.value;
      assert s[..8] == source.data[first..first + 8];
      if !(low <= len <= high) || len + 7 >= U64 {
        return Ready(Err);
      }
      var aligned := CalcAligned(len);
      if aligned > 0 {
        state := Fill(len, aligned);
        return Pending;
      }
      state := Done;
      assert s[8..] == source.data[source.pos..] && s[8..8] == [] && Zeros(0) == [];
      return Ready(Ok(Some([])));
    }

    /** The second state: wait for the whole string with its padding, and check the padding. */
    method PollContents(source: Source) returns (r: Poll<Result<Option<bytes>>>)
      requires Valid(source) && state.Fill?
      modifies this, source
      ensures source.Valid() && Repr() == old(Repr()) && Spent(old(source.waits), source.waits, r.Pending?)
      ensures r.Pending? ==> Valid(source) && state == old(state)
      ensures r.Ready? ==> Agrees(Decode(low, high, source.data[first..]), r.value, source.Rest())
    {
      hide FromLE64, Decode, CalcAligned;
      var len, aligned := state.len, state.aligned;
      DecodeWhole(low, high, source.data, first, len, aligned);
      var f := source.PollFillBuf();
      if f.Pending? {
        return Pending;
      }
      var buf := f.value;
      while |buf| < aligned
        invariant Valid(source) && state == old(state) && |buf| == source.visible
        invariant buf == source.data[source.pos..source.pos + |buf|] && source.waits <= old(source.waits)
        decreases aligned - |buf|
      {
        var g := source.PollForceFillBuf();
        if g.Pending? {
          return Pending;
        }
        if g.value.Err? {
          return Ready(Err);
        }
        buf := g.value.value;
      }
      var contents := buf[..aligned];
      source.Consume(aligned);
      state := Done;
      Start(source.data, first + 8, buf, aligned);
      if contents[len..] != Zeros(aligned - len) {
        return Ready(Err);
      }
      return Ready(Ok(Some(contents[..len])));
    }

    /** `poll_reader`: whatever the schedule, the answer is that of decoding the whole stream. */
    method PollReader(source: Source) returns (r: Poll<Result<Option<bytes>>>)
      requires Valid(source)
      modifies Repr(), source
      ensures source.Valid() && fresh(Repr() - old(Repr())) && Spent(old(source.waits), source.waits, r.Pending?)
      ensures r.Pending? ==> Valid(source)
      ensures r.Ready? ==> Agrees(Decode(low, high, source.data[first..]), r.value, source.Rest())
      ensures r.Ready? ==> Tells(source.data[first..], r.value)
    {
      hide Decode, TryReadU64.Valid, Starts;
      DecodeOtherwise(low, high, source.data[first..]);
      if state.ReadLen? {
        r := PollLength(source);
        if r.Ready? || state.ReadLen? {
          return;
        }
      }
      r := PollContents(source);
    }
  }
}
