/** `PaddedReader`: a string of known length inside a stream, followed by its padding. */
module PaddedReaders {
  import opened Wire
  import opened Streams

  datatype State =
    | Content(rem: nat)
    | ReadPadding(from: nat, to: nat)
    | Padding(from: nat)
    | Eof

  class PaddedReader {
    const source: Source
    const trailer: nat
    var padding: bytes
    var state: State
    ghost const start: nat
    ghost const len: nat
    /** How much of the last buffer handed out is not consumed yet. */
    ghost var offered: nat

    /** Where the last, incomplete word of the string starts, and where its padding ends. */
    ghost const base: nat
    ghost const end: nat

    /** The stream holds the string and its padding. */
    ghost predicate Whole() { end <= |source.data| }

    /** It ends inside the last, incomplete word and its padding. */
    ghost predicate Torn() { base <= |source.data| < end }

    /** How much of the string was consumed. */
    ghost function Consumed(): int
      reads this
    {
      match state
      case Content(rem) => base - start - rem
      case ReadPadding(from, _) => base - start + from
      case Padding(from) => base - start + from
      case Eof => len
    }

    /** The bytes of the last word that were read into `padding`. */
    ghost predicate Saved(from: nat, to: nat)
      requires to <= |padding|
      reads this
    {
      base + to <= |source.data| && forall i | from <= i < to :: padding[i] == source.data[base + i]
    }

    lemma SavedBytes(from: nat)
      requires from <= trailer <= |padding| && Saved(from, trailer)
      ensures base + trailer <= |source.data| && padding[from..trailer] == source.data[base + from..base + trailer]
    {}

    ghost predicate Valid()
      reads this, source
    {
      && source.Valid() && |padding| == 8 && trailer < 8
      && base + trailer == start + len && start <= base && end == base + (if trailer == 0 then 0 else 8)
      && match state
         case Content(rem) =>
           && source.pos + rem == base && start <= source.pos && offered <= source.visible
           && (offered == 0 || offered < rem || (offered == rem + trailer && end - source.pos <= source.visible))
         case ReadPadding(from, to) =>
           && from < trailer && from <= to <= 8 && source.pos == base + to
           && Saved(from, to)
           && (offered > 0 ==> to == from && offered == trailer - from && 8 - from <= source.visible)
         case Padding(from) =>
           && from < trailer && source.pos == end && offered <= trailer - from
           && Saved(from, trailer)
         case Eof => source.pos == end && offered == 0
    }

    /** `remaining_usize`: what is left of the string, and with its padding in the stream. */
    function Remaining(): (r: (int, int))
      reads this
    {
      var tail := if trailer == 0 then 0 else 8;
      match state
      case Content(rem) => (rem + trailer, rem + tail)
      case ReadPadding(from, _) => (trailer - from, tail - from)
      case Padding(from) => (trailer - from, tail - from)
      case Eof => (0, 0)
    }

    constructor (source: Source, len: u64)
      requires source.Valid()
      ensures Valid() && this.source == source && start == source.pos && this.len == len
      ensures Consumed() == 0 && offered == 0
      ensures end == start + Wire.Padded(len)
    {
      this.source, trailer, padding := source, len % 8, Zeros(8);
      state := Content(len / 8 * 8);
      start, this.len, offered := source.pos, len, 0;
      base := source.pos + len / 8 * 8;
      end := source.pos + len / 8 * 8 + if len % 8 == 0 then 0 else 8;
    }

    /** `poll_fill_buf`: the next bytes of the string. On a stream that holds the string and its
        padding, it never fails, and is empty only at the end of the string. On a shorter one it fails
        if the stream ends inside the last word, and otherwise comes to an early end. */
    method PollFillBuf() returns (r: Poll<Result<bytes>>)
      requires Valid()
      modifies this, source
      ensures Valid() && Consumed() == old(Consumed()) && source.pos >= old(source.pos)
      ensures Spent(old(source.waits), source.waits, r.Pending?)
      ensures r.Ready? && r.value.Ok? ==>
        var b := r.value.value;
        && offered == |b| <= len - Consumed() && 0 <= Consumed() && start + Consumed() + |b| <= |source.data|
        && b == source.data[start + Consumed()..start + Consumed() + |b|]
        && (b == [] ==> Consumed() == len || source.pos == |source.data| < base)
      ensures r == Ready(Err) ==> Torn()
    {
      offered := 0;
      match state
      case Content(rem) =>
        r := FillContent(rem);
      case ReadPadding(from, to) =>
        r := FillPadding(from);
      case Padding(from) =>
        offered := trailer - from;
        SavedBytes(from);
        r := Ready(Ok(padding[from..trailer]));
      case Eof =>
        r := Ready(Ok([]));
    }

    method FillContent(rem: nat) returns (r: Poll<Result<bytes>>)
      requires Valid() && state == Content(rem) && offered == 0
      modifies this`offered, source`visible, source`waits
      ensures Valid() && Spent(old(source.waits), source.waits, r.Pending?)
      ensures r.Ready? && r.value.Ok? ==>
        var b := r.value.value;
        && offered == |b| <= rem + trailer && source.pos + |b| <= |source.data|
        && b == source.data[source.pos..source.pos + |b|]
        && (b == [] ==> rem + trailer == 0 || source.pos == |source.data| < base)
      ensures r == Ready(Err) ==> Torn()
    {
      var f := source.PollFillBuf();
      if f.Pending? {
        return Pending;
      }
      var buf := f.value;
      if |buf| < rem {
        offered := |buf|;
        return Ready(Ok(buf));
      }
      var g := ForceFill(buf, rem + if trailer == 0 then 0 else 8);
      if g.Pending? || g.value.Err? {
        return g;
      }
      offered := rem + trailer;
      return Ready(Ok(g.value.value[..rem + trailer]));
    }

    /** Fill the buffer of the stream until it has `need` bytes. */
    method ForceFill(buf: bytes, need: nat) returns (r: Poll<Result<bytes>>)
      requires source.Valid() && |buf| == source.visible && buf == source.data[source.pos..source.pos + |buf|]
      modifies source`visible, source`waits
      ensures source.Valid() && source.visible >= |buf| && Spent(old(source.waits), source.waits, r.Pending?)
      ensures Succeeds(r) ==>
        var b := r.value.value;
        need <= |b| == source.visible && b == source.data[source.pos..source.pos + |b|]
      ensures r == Ready(Err) ==> source.pos + |buf| <= |source.data| < source.pos + need
    {
      var b := buf;
      while |b| < need
        invariant source.Valid() && |buf| <= |b| == source.visible && source.waits <= old(source.waits)
        invariant b == source.data[source.pos..source.pos + |b|]
        decreases need - |b|
      {
        var g := source.PollForceFillBuf();
        if g.Pending? || g.value.Err? {
          return g;
        }
        b := g.value.value;
      }
      return Ready(Ok(b));
    }

    /** Read more of the last word. */
    method ReadMore() returns (r: Poll<Result<()>>)
      requires Valid() && state.ReadPadding? && state.to < 8 && offered == 0
      modifies this`padding, this`state, source
      ensures Valid() && state.ReadPadding? && state.from == old(state).from
      ensures source.pos >= old(source.pos) && Spent(old(source.waits), source.waits, r.Pending?)
      ensures r.Ready? && r.value.Ok? ==> state.to > old(state).to
      ensures r == Ready(Err) ==> Torn()
    {
      var from, to := state.from, state.to;
      var f := source.PollRead(8 - to);
      if f.Pending? {
        return Pending;
      }
      if f.value == [] {
        return Ready(Err);
      }
      var to' := to + |f.value|;
      padding := padding[..to] + f.value + padding[to'..];
      state := ReadPadding(from, to');
      return Ready(Ok(()));
    }

    method FillPadding(from: nat) returns (r: Poll<Result<bytes>>)
      requires Valid() && state.ReadPadding? && state.from == from && offered == 0
      modifies this, source
      ensures Valid() && source.pos >= old(source.pos) && Spent(old(source.waits), source.waits, r.Pending?)
      ensures state == Padding(from) || (state.ReadPadding? && state.from == from)
      ensures r.Ready? && r.value.Ok? ==>
        && state == Padding(from) && offered == trailer - from && base + trailer <= |source.data|
        && r.value.value == source.data[base + from..base + trailer]
      ensures r == Ready(Err) ==> Torn()
    {
      while state.to < 8
        invariant Valid() && state.ReadPadding? && state.from == from && offered == 0
        invariant source.pos >= old(source.pos) && source.waits <= old(source.waits)
        decreases 8 - state.to
      {
        var more := ReadMore();
        if more.Pending? {
          return Pending;
        }
        if more.value.Err? {
          return Ready(Err);
        }
      }
      state := Padding(from);
      offered := trailer - from;
      SavedBytes(from);
      return Ready(Ok(padding[from..trailer]));
    }

    /** `consume`. */
    method Consume(amt: nat)
      requires Valid() && amt <= offered
      modifies this`state, this`offered, source`pos, source`visible
      ensures Valid() && Consumed() == old(Consumed()) + amt && offered == old(offered) - amt
      ensures source.pos >= old(source.pos)
    {
      offered := offered - amt;
      var (rem, aligned) := Remaining();
      if amt == rem {
        if state.Content? || state.ReadPadding? {
          source.Consume(aligned);
        }
        state := Eof;
        return;
      }
      match state
      case Content(rem) =>
        source.Consume(amt);
        state := if amt > rem then ReadPadding(amt - rem, amt - rem) else Content(rem - amt);
      case ReadPadding(from, to) =>
        source.Consume(amt);
        state := ReadPadding(from + amt, if from + amt > to then from + amt else to);
      case Padding(from) =>
        state := Padding(from + amt);
      case Eof =>
    }

    /** `poll_drain`: when it is done, the stream stands behind the padding. */
    method PollDrain() returns (r: Poll<Result<()>>)
      requires Valid()
      modifies this, source
      ensures Valid() && source.pos >= old(source.pos) && Spent(old(source.waits), source.waits, r.Pending?)
      ensures r.Ready? && r.value.Ok? ==>
        if Consumed() == len then source.pos == end <= |source.data| else source.pos == |source.data| < base
      ensures r == Ready(Err) ==> Torn()
    {
      while true
        invariant Valid() && source.pos >= old(source.pos) && source.waits <= old(source.waits)
        decreases len - Consumed()
      {
        var f := PollFillBuf();
        if f.Pending? {
          return Pending;
        }
        if f.value.Err? {
          return Ready(Err);
        }
        if f.value.value == [] {
          return Ready(Ok(()));
        }
        Consume(|f.value.value|);
      }
    }
  }
}
