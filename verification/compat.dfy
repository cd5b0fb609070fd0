/** `AsyncBufReadCompat` over a lent reader: what the consumer of a file or of a NAR holds. */
module Compat {
  import opened Wire
  import opened Streams
  import opened PaddedReaders
  import opened NarReaders
  import opened Lendings

  lemma Slices(data: bytes, first: nat, next: nat, n: nat, amt: nat)
    requires first <= next <= |data| && amt <= n && (n > 0 ==> next + n <= |data|)
    ensures n > 0 ==> data[first..next] + data[next..next + n][..amt] == data[first..next + amt]
    ensures n > 0 ==> data[next..next + n][amt..] == data[next + amt..next + n]
  {}

  class BufReadCompat {
    const reader: Loan
    var buffer: bytes
    /** Where the sub-stream starts, and what was consumed of it. */
    ghost const first: nat
    ghost var seen: bytes

    ghost function Repr(): set<object> { {this} + reader.Repr() }

    ghost predicate Valid()
      reads this, Repr()
    {
      var data, next := reader.sub.Source().data, reader.sub.Next();
      && reader.Valid()
      && first <= next <= |data| && seen == data[first..next]
      && (buffer != [] ==>
            && reader.inner.Some? && reader.sub.Offered() == |buffer| && next + |buffer| <= |data|
            && buffer == data[next..next + |buffer|]
            && forall end: nat | reader.sub.IsWhole(end) :: next + |buffer| <= reader.sub.Last(end))
    }

    constructor (reader: Loan)
      requires reader.Valid() && 0 <= reader.sub.Next() <= |reader.sub.Source().data|
      ensures Valid() && this.reader == reader && first == reader.sub.Next() && seen == []
    {
      hide PaddedReader.Valid, NarReader.Valid, SubReader.IsWhole;
      this.reader, buffer := reader, [];
      first, seen := reader.sub.Next(), [];
    }

    /** `got` is the start of the sub-stream. */
    ghost predicate Took(got: bytes) {
      && first + |got| <= |reader.sub.Source().data| && got == reader.sub.Source().data[first..first + |got|]
      && (reader.sub.Padded? ==> first + |got| <= reader.sub.padded.start + reader.sub.padded.len)
    }

    /** What was consumed is the start of the sub-stream. */
    lemma Taken()
      requires Valid()
      ensures Took(seen) && |seen| == reader.sub.Next() - first && reader.Valid()
    {
      hide PaddedReader.Valid, NarReader.Valid, SubReader.IsWhole;
      reader.sub.Bounds();
    }

    /** `poll_fill_buf`: the cached buffer, or a new one. The consumer sees the bytes of the
        sub-stream in order; it sees none exactly when it has consumed all of them. */
    method PollFillBuf() returns (r: Poll<Result<bytes>>)
      requires Valid()
      modifies Repr()
      ensures r != Ready(Err) ==> Valid() && seen == old(seen)
      ensures Spent(old(reader.sub.Source().waits), reader.sub.Source().waits, r.Pending?)
      ensures r.Ready? && r.value.Ok? ==> r.value.value == buffer && (buffer == [] ==> reader.inner.None?)
      ensures r.Pending? ==> reader.inner == old(reader.inner)
      ensures Succeeds(r) && old(reader.inner).Some? && reader.inner.None? ==> reader.sub.AtEnd()
      ensures old(reader.inner).Some? ==> forall end: nat | reader.sub.IsWhole(end) ::
        && r != Ready(Err)
        && (r.Ready? && buffer == [] ==>
              first <= reader.sub.Last(end) <= |reader.sub.Source().data| &&
              seen == reader.sub.Source().data[first..reader.sub.Last(end)])
        && (r.Ready? ==> reader.sub.Next() + |buffer| <= reader.sub.Last(end))
    {
      hide PaddedReader.Valid, NarReader.Valid, SubReader.IsWhole, SubReader.AtEnd;
      if buffer == [] {
        var f := reader.PollFillBuf();
        if f.Pending? || f.value.Err? {
          return f;
        }
        buffer := f.value.value;
      }
      r := Ready(Ok(buffer));
    }

    method Consume(amt: nat)
      requires Valid() && amt <= |buffer|
      modifies Repr()
      ensures Valid() && seen == old(seen + buffer[..amt]) && buffer == old(buffer)[amt..]
      ensures reader.inner == old(reader.inner) && reader.sub.Source().waits == old(reader.sub.Source().waits)
    {
      hide SubReader.Valid, SubReader.IsWhole, SubReader.EndsAt, Loan.Valid;
      Slices(reader.sub.Source().data, first, reader.sub.Next(), |buffer|, amt);
      seen := seen + buffer[..amt];
      buffer := buffer[amt..];
      reader.Consume(amt);
    }

    /** Dropping the reader sends the stream back, wherever the consumer stopped. */
    method Drop()
      requires Valid()
      modifies Repr()
      ensures reader.Valid() && reader.inner == None && reader.slot == Some(reader.sub)
      ensures reader.sub.Source().waits == old(reader.sub.Source().waits)
    {
      hide PaddedReader.Valid, NarReader.Valid, SubReader.IsWhole;
      reader.ReturnReader();
    }
  }
}
