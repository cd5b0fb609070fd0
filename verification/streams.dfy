/** The readers and writers that the code is handed: any schedule of short reads, short writes
    and `Poll::Pending` is allowed, so what is proved over them holds for every chunking. */
module Streams {
  import opened Wire

  datatype Option<+T> = None | Some(value: T)
  datatype Result<+T> = Ok(value: T) | Err
  datatype Poll<+T> = Pending | Ready(value: T)

  predicate Succeeds<T>(r: Poll<Result<T>>) { r.Ready? && r.value.Ok? }

  /** How a budget of `Pending` answers changes over a call: it never grows, and an answer of
      `Pending` costs at least one. */
  predicate Spent(before: nat, after: nat, pending: bool) {
    after <= before && (pending ==> after < before)
  }

  /** `AsyncBytesRead` (and `AsyncBufRead`): a byte sequence, a position, and a window of bytes
      that are in the buffer already. The window only shrinks by `Consume`. The stream answers
      `Pending` when it likes, but only finitely often: `waits` is a bound on how often it still will. */
  class Source {
    const data: bytes
    var pos: nat
    var visible: nat
    var waits: nat

    constructor (data: bytes, waits: nat)
      ensures Valid() && this.data == data && pos == 0 && this.waits == waits
    {
      this.data := data;
      pos, visible, this.waits := 0, 0, waits;
    }

    ghost predicate Valid()
      reads this
    {
      pos + visible <= |data|
    }

    ghost function Rest(): bytes
      requires Valid()
      reads this
    {
      data[pos..]
    }

    /** Whether the stream makes its caller wait. */
    method Stalls() returns (b: bool)
      modifies this`waits
      ensures Spent(old(waits), waits, b)
    {
      b := false;
      if waits > 0 {
        if * {
          waits, b := waits - 1, true;
        }
      }
    }

    /** `poll_fill_buf`: empty only at the end of the stream. */
    method PollFillBuf() returns (r: Poll<bytes>)
      requires Valid()
      modifies this`visible, this`waits
      ensures Valid() && visible >= old(visible) && Spent(old(waits), waits, r.Pending?)
      ensures r.Ready? ==> r.value == data[pos..pos + visible]
      ensures r.Ready? && r.value == [] ==> pos == |data|
    {
      if pos + visible < |data| {
        var more :| (if visible == 0 then 1 else 0) <= more <= |data| - pos - visible;
        visible := visible + more;
      }
      var stalled := Stalls();
      return if stalled then Pending else Ready(data[pos..pos + visible]);
    }

    /** `poll_force_fill_buf`: more than before, or an error at the end of the stream. */
    method PollForceFillBuf() returns (r: Poll<Result<bytes>>)
      requires Valid()
      modifies this`visible, this`waits
      ensures Valid() && visible >= old(visible) && Spent(old(waits), waits, r.Pending?)
      ensures r.Ready? && r.value.Ok? ==> r.value.value == data[pos..pos + visible] && visible > old(visible)
      ensures r.Ready? && r.value.Err? ==> visible == old(visible) && pos + visible == |data|
    {
      if pos + visible == |data| {
        return Ready(Err);
      }
      var more :| 1 <= more <= |data| - pos - visible;
      visible := visible + more;
      var stalled := Stalls();
      return if stalled then Pending else Ready(Ok(data[pos..pos + visible]));
    }

    method Consume(n: nat)
      requires Valid() && n <= visible
      modifies this`pos, this`visible
      ensures Valid() && pos == old(pos) + n && visible == old(visible) - n
    {
      pos, visible := pos + n, visible - n;
    }

    /** A decoder that is not part of the model reads `n` bytes. */
    method Take(n: nat)
      requires Valid() && pos + n <= |data|
      modifies this`pos, this`visible
      ensures Valid() && pos == old(pos) + n
    {
      pos, visible := pos + n, if n <= visible then visible - n else 0;
    }

    /** `poll_read` into a buffer of `room` bytes: nothing only at the end of the stream. */
    method PollRead(room: nat) returns (r: Poll<bytes>)
      requires Valid() && room > 0
      modifies this`pos, this`visible, this`waits
      ensures Valid() && Spent(old(waits), waits, r.Pending?)
      ensures r.Pending? ==> pos == old(pos) && visible == old(visible)
      ensures r.Ready? ==> |r.value| <= room && pos == old(pos) + |r.value| && r.value == data[old(pos)..pos]
      ensures r.Ready? && r.value == [] ==> pos == |data|
    {
      var stalled := Stalls();
      if stalled {
        return Pending;
      }
      if pos == |data| {
        return Ready([]);
      }
      var n :| 1 <= n <= room && n <= |data| - pos;
      r := Ready(data[pos..pos + n]);
      pos, visible := pos + n, if n <= visible then visible - n else 0;
    }
  }

  /** `AsyncWrite`: takes some of what it is offered, and at least one byte; it answers `Pending`
      finitely often. */
  class Sink {
    var written: bytes
    var waits: nat

    constructor (waits: nat)
      ensures written == [] && this.waits == waits
    {
      written, this.waits := [], waits;
    }

    method Stalls() returns (b: bool)
      modifies this`waits
      ensures Spent(old(waits), waits, b)
    {
      b := false;
      if waits > 0 {
        if * {
          waits, b := waits - 1, true;
        }
      }
    }

    method PollWrite(buf: bytes) returns (r: Poll<nat>)
      requires buf != []
      modifies this
      ensures Spent(old(waits), waits, r.Pending?)
      ensures r.Pending? ==> written == old(written)
      ensures r.Ready? ==> 1 <= r.value <= |buf| && written == old(written) + buf[..r.value]
    {
      var stalled := Stalls();
      if stalled {
        return Pending;
      }
      var n :| 1 <= n <= |buf|;
      written := written + buf[..n];
      r := Ready(n);
    }

    method PollShutdown() returns (r: Poll<()>)
      modifies this`waits
      ensures Spent(old(waits), waits, r.Pending?)
    {
      var stalled := Stalls();
      return if stalled then Pending else Ready(());
    }
  }
}
