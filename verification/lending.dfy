/** `Lending` and `LentReader`: one stream is lent to a consumer as a sub-stream, comes back when
    the consumer reaches its end or drops it, and is drained before it is used again. */
module Lendings {
  import opened Wire
  import opened Streams
  import opened PaddedReaders
  import opened NarReaders

  /** The two readers that implement `DrainInto`. */
  datatype SubReader = Padded(padded: PaddedReader) | Nar(nar: NarReader) {
    ghost function Repr(): set<object> {
      match this
      case Padded(p) => {p, p.source}
      case Nar(n) => {n, n.source, n.state, n.state.nodeSelect, n.state.entrySelect}
    }

    function Source(): Source {
      match this
      case Padded(p) => p.source
      case Nar(n) => n.source
    }

    ghost predicate Valid()
      reads Repr()
    {
      match this
      case Padded(p) => p.Valid()
      case Nar(n) => n.Valid()
    }

    /** Draining the sub-stream takes the stream to `end`. */
    ghost predicate EndsAt(end: nat) {
      match this
      case Padded(p) => end == Min(p.end, |p.source.data|)
      case Nar(n) => n.start <= end && Delimits(n.stream, end - n.start)
    }

    /** The sub-stream ends at `end`, and the stream holds all of it. */
    ghost predicate IsWhole(end: nat) {
      EndsAt(end) && (Padded? ==> padded.Whole())
    }

    /** What the consumer may still consume of the last buffer. */
    ghost function Offered(): nat
      reads Repr()
    {
      match this
      case Padded(p) => p.offered
      case Nar(n) => n.parsed
    }

    /** Where the next byte for the consumer is. */
    ghost function Next(): int
      reads Repr()
    {
      match this
      case Padded(p) => p.start + p.Consumed()
      case Nar(n) => n.source.pos
    }

    /** Where the bytes for the consumer end, if the sub-stream ends at `end`. */
    ghost function Last(end: nat): nat {
      match this
      case Padded(p) => p.start + p.len
      case Nar(n) => end
    }

    /** All of a NAR was consumed. */
    ghost predicate AtEnd()
      reads Repr()
    {
      Nar? ==> EndsAt(nar.source.pos)
    }

    /** Where the two kinds of sub-streams end. */
    lemma Ends()
      ensures Padded? ==> EndsAt(Min(padded.end, |Source().data|))
      ensures Padded? && padded.Whole() ==> IsWhole(Min(padded.end, |Source().data|))
      ensures Nar? ==> forall end: nat | nar.start <= end && Delimits(nar.stream, end - nar.start) :: IsWhole(end)
    {
      hide Delimits;
    }

    lemma Bounds()
      requires Valid()
      ensures Source().Valid() && (Padded? ==> Next() <= padded.start + padded.len)
      ensures Nar? ==> nar.start <= |nar.source.data| && nar.stream == nar.source.data[nar.start..]
    {
      hide Delimits;
    }

    method PollFillBuf() returns (r: Poll<Result<bytes>>)
      requires Valid()
      modifies Repr()
      ensures r != Ready(Err) ==> Valid() && Next() == old(Next())
      ensures Spent(old(Source().waits), Source().waits, r.Pending?)
      ensures r.Ready? && r.value.Ok? ==>
        var b := r.value.value;
        && |b| == Offered() && 0 <= Next() && Next() + |b| <= |Source().data|
        && b == Source().data[Next()..Next() + |b|]
      ensures r == Ready(Ok([])) ==> AtEnd()
      ensures forall end: nat | IsWhole(end) ::
        && r != Ready(Err)
        && (r.Ready? ==> (r.value.value == [] <==> Next() == Last(end)) && Next() + |r.value.value| <= Last(end))
    {
      hide Delimits, PaddedReader.Valid, NarReader.Valid;
      match this
      case Padded(p) => r := p.PollFillBuf();
      case Nar(n) =>
        r := n.PollFillBuf();
        assert forall end: nat | EndsAt(end) :: Delimits(n.stream, end - n.start);
    }

    method Consume(amt: nat)
      requires Valid() && amt <= Offered()
      modifies Repr()
      ensures Valid() && Next() == old(Next()) + amt && Offered() == old(Offered()) - amt
      ensures Source().waits == old(Source().waits)
    {
      hide PaddedReader.Valid, NarReader.Valid;
      match this
      case Padded(p) => p.Consume(amt);
      case Nar(n) => n.Consume(amt);
    }

    method PollDrain() returns (r: Poll<Result<()>>)
      requires Valid()
      modifies Repr()
      ensures Source().Valid() && (r != Ready(Err) ==> Valid())
      ensures Spent(old(Source().waits), Source().waits, r.Pending?)
      ensures forall end: nat | IsWhole(end) :: r != Ready(Err)
      ensures forall end: nat | EndsAt(end) :: r.Ready? && r.value.Ok? ==> Source().pos == end
      ensures r.Ready? && r.value.Ok? ==> EndsAt(Source().pos)
    {
      hide Delimits, PaddedReader.Valid, NarReader.Valid;
      match this
      case Padded(p) => r := p.PollDrain();
      case Nar(n) =>
        r := n.PollDrain();
        assert forall end: nat | EndsAt(end) :: Delimits(n.stream, end - n.start);
    }
  }

  /** One loan: the consumer's `LentReader` (`inner`) and the channel on which it sends the
      reader back (`slot`). Ownership of the reader is with exactly one of the consumer, the
      channel and the lender. */
  class Loan {
    var inner: Option<SubReader>
    var slot: Option<SubReader>
    ghost const sub: SubReader

    ghost function Repr(): set<object> { {this} + sub.Repr() }

    /** The reader is out, or on its way back. */
    ghost predicate Out()
      reads this
    {
      (inner == Some(sub) && slot == None) || (inner == None && slot == Some(sub))
    }

    ghost predicate Valid()
      reads Repr()
    {
      sub.Valid() && Out()
    }

    lemma Bounds()
      requires Valid()
      ensures sub.Source().Valid()
      ensures sub.Nar? ==>
        sub.nar.start <= |sub.nar.source.data| && sub.nar.stream == sub.nar.source.data[sub.nar.start..]
    {
      hide SubReader.Valid;
      sub.Bounds();
    }

    constructor (sub: SubReader)
      requires sub.Valid()
      ensures Valid() && this.sub == sub && inner == Some(sub)
    {
      hide Delimits, PaddedReader.Valid, NarReader.Valid;
      this.sub, inner, slot := sub, Some(sub), None;
    }

    /** `return_reader`, and what `drop` does. */
    method ReturnReader()
      requires Out()
      modifies this
      ensures inner == None && slot == Some(sub)
    {
      if inner.Some? {
        inner, slot := None, inner;
      }
    }

    /** `poll_fill_buf`: at the end of the sub-stream the reader goes back. */
    method PollFillBuf() returns (r: Poll<Result<bytes>>)
      requires Valid()
      modifies Repr()
      ensures r != Ready(Err) ==> Valid() && sub.Next() == old(sub.Next())
      ensures Spent(old(sub.Source().waits), sub.Source().waits, r.Pending?)
      ensures r.Ready? && r.value.Ok? && inner.Some? ==>
        var b := r.value.value;
        && |b| == sub.Offered() && 0 <= sub.Next() && sub.Next() + |b| <= |sub.Source().data|
        && b == sub.Source().data[sub.Next()..sub.Next() + |b|] && b != []
      ensures r.Ready? && r.value.Ok? && inner.None? ==> r.value.value == [] && (old(inner).Some? ==> sub.AtEnd())
      ensures inner.Some? ==> old(inner).Some?
      ensures r.Pending? || r == Ready(Err) ==> inner == old(inner) && slot == old(slot)
      ensures old(inner).Some? ==> forall end: nat | sub.IsWhole(end) ::
        && r != Ready(Err)
        && (r.Ready? ==>
              && (inner.None? <==> sub.Next() == sub.Last(end))
              && sub.Next() + |r.value.value| <= sub.Last(end))
    {
      hide Delimits, PaddedReader.Valid, NarReader.Valid, SubReader.EndsAt, SubReader.IsWhole, SubReader.AtEnd;
      if inner.Some? {
        r := inner.value.PollFillBuf();
        if r.Pending? || r.value.Err? || r.value.value != [] {
          return;
        }
      }
      ReturnReader();
      r := Ready(Ok([]));
    }

    method Consume(amt: nat)
      requires Valid() && amt <= (if inner.Some? then sub.Offered() else 0)
      modifies Repr()
      ensures Valid() && sub.Next() == old(sub.Next()) + amt && sub.Offered() == old(sub.Offered()) - amt
      ensures inner == old(inner) && sub.Source().waits == old(sub.Source().waits)
    {
      hide Delimits, PaddedReader.Valid, NarReader.Valid;
      if inner.Some? {
        inner.value.Consume(amt);
      }
    }
  }

  datatype LendingState = Lent(loan: Loan) | Drain(sub: SubReader) | Available

  class Lending {
    const source: Source
    var state: LendingState

    ghost function Repr(): set<object>
      reads this
    {
      {this, source} +
      match state
      case Lent(loan) => loan.Repr()
      case Drain(sub) => sub.Repr()
      case Available => {}
    }

    ghost predicate Valid()
      reads this, Repr()
    {
      source.Valid() &&
      match state
      case Lent(loan) => loan.Valid() && loan.sub.Source() == source
      case Drain(sub) => sub.Valid() && sub.Source() == source
      case Available => true
    }

    /** Where the stream stands when it is next available. */
    ghost predicate ResumesAt(pos: nat)
      reads this, source
    {
      match state
      case Lent(loan) => loan.sub.EndsAt(pos)
      case Drain(sub) => sub.EndsAt(pos)
      case Available => source.pos == pos
    }

    /** And it will get there. */
    ghost predicate WillResumeAt(pos: nat)
      reads this, source
    {
      match state
      case Lent(loan) => loan.sub.IsWhole(pos)
      case Drain(sub) => sub.IsWhole(pos)
      case Available => source.pos == pos
    }

    constructor (source: Source)
      requires source.Valid()
      ensures Valid() && this.source == source && state == Available
    {
      hide Delimits, PaddedReader.Valid, NarReader.Valid;
      this.source, state := source, Available;
    }

    /** The consumer still has the reader. */
    predicate IsOut()
      reads this, if state.Lent? then {state.loan} else {}
    {
      state.Lent? && state.loan.inner.Some?
    }

    /** `poll_ready`: wait for the reader, drain it, and have the stream again at the right byte.
        While the reader is out, nothing changes; otherwise a wait is one of the stream itself. */
    method PollReady() returns (r: Poll<Result<()>>)
      requires Valid() && (state.Lent? ==> this !in state.loan.Repr()) && (state.Drain? ==> this !in state.sub.Repr())
      modifies Repr()
      ensures source.Valid() && (r != Ready(Err) ==> Valid())
      ensures Spent(old(source.waits), source.waits, r.Pending? && !old(IsOut()))
      ensures forall pos: nat | old(ResumesAt(pos)) :: r != Ready(Err) ==> ResumesAt(pos)
      ensures forall pos: nat | old(WillResumeAt(pos)) :: r != Ready(Err) && WillResumeAt(pos)
      ensures r.Ready? && r.value.Ok? ==> state == Available
      ensures r.Ready? && r.value.Ok? ==> forall pos: nat | pos == source.pos :: old(ResumesAt(pos))
      ensures r.Pending? ==> state != Available
      ensures state == old(state) || state.Available? || (old(state).Lent? && state == Drain(old(state).loan.sub))
      ensures r == Ready(Err) ==> state.Drain?
      ensures old(IsOut()) ==> r == Pending && state == old(state)
      ensures !old(IsOut()) ==> !state.Lent?
    {
      hide Delimits, PaddedReader.Valid, NarReader.Valid, SubReader.EndsAt;
      if state.Lent? {
        var loan := state.loan;
        if loan.slot.None? {
          return Pending;
        }
        var sub := loan.slot.value;
        loan.slot := None;
        state := Drain(sub);
      }
      if state.Drain? {
        var d := state.sub.PollDrain();
        if d.Pending? || d.value.Err? {
          return d;
        }
        state := Available;
      }
      r := Ready(Ok(()));
    }

    /** `lend`: the caller has built the sub-reader on the stream. */
    method Lend(sub: SubReader) returns (loan: Loan)
      requires Valid() && state == Available && sub.Valid() && sub.Source() == source && this !in sub.Repr()
      modifies this
      ensures fresh(loan) && loan.sub == sub && loan.inner == Some(sub) && loan.Valid()
      ensures Valid() && state == Lent(loan)
    {
      hide Delimits, PaddedReader.Valid, NarReader.Valid;
      loan := new Loan(sub);
      state := Lent(loan);
    }
  }
}
