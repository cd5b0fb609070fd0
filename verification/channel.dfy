/** `ChannelWriter`, which cuts what is written into chunks and sends them through a channel; and
    the two kinds of writers that a NAR is written to. */
module Channels {
  import opened Wire
  import opened Streams

  function Concat(chunks: seq<bytes>): bytes {
    if chunks == [] then [] else chunks[0] + Concat(chunks[1..])
  }

  lemma {:induction false} ConcatAppend(chunks: seq<bytes>, c: bytes)
    ensures Concat(chunks + [c]) == Concat(chunks) + c
  {
    if chunks == [] {
      assert Concat([c]) == c + Concat([]);
    } else {
      ConcatAppend(chunks[1..], c);
      assert (chunks + [c])[1..] == chunks[1..] + [c];
    }
  }

  class ChannelWriter {
    /** What went through the channel. */
    var sent: seq<bytes>
    var buffer: bytes
    const chunkSize: nat
    /** How often the channel will still be found full, and whether its receiver is there; a
        steady one stays. */
    var waits: nat
    var open: bool
    const steady: bool
    /** What the writer has accepted. */
    ghost var accepted: bytes

    ghost predicate Valid()
      reads this
    {
      && chunkSize > 0 && |buffer| <= chunkSize && accepted == Concat(sent) + buffer && (steady ==> open)
      && forall i | 0 <= i < |sent| :: 0 < |sent[i]| <= chunkSize
    }

    constructor (chunkSize: nat, waits: nat, steady: bool)
      requires chunkSize > 0
      ensures Valid() && accepted == [] && this.chunkSize == chunkSize && this.waits == waits && this.steady == steady
    {
      this.chunkSize, sent, buffer := chunkSize, [], [];
      this.waits, open, this.steady := waits, true, steady;
      accepted := [];
    }

    /** `poll_reserve`: a slot in the channel, or an error if its receiver is gone. */
    method PollReserve() returns (r: Poll<Result<()>>)
      requires Valid()
      modifies this`waits, this`open
      ensures Valid() && Spent(old(waits), waits, r.Pending?)
      ensures r == Ready(Err) ==> !open
    {
      if !steady {
        if * {
          open := false;
        }
      }
      if !open {
        return Ready(Err);
      }
      if waits > 0 {
        if * {
          waits := waits - 1;
          return Pending;
        }
      }
      return Ready(Ok(()));
    }

    /** `poll_emit_chunk`, and so `poll_flush` and `poll_shutdown`: it waits while the channel is
        full, and fails when it is closed. */
    method PollEmitChunk() returns (r: Poll<Result<()>>)
      requires Valid()
      modifies this
      ensures Valid() && accepted == old(accepted) && Spent(old(waits), waits, r.Pending?)
      ensures r == Ready(Err) ==> !open
      ensures if Succeeds(r) then buffer == [] else buffer == old(buffer)
      ensures sent == old(sent) + if Succeeds(r) && old(buffer) != [] then [old(buffer)] else []
    {
      if buffer == [] {
        return Ready(Ok(()));
      }
      r := PollReserve();
      if Succeeds(r) {
        ConcatAppend(sent, buffer);
        sent, buffer := sent + [buffer], [];
      }
    }

    /** `poll_write`: as much of what is offered as goes into the chunk, and at least one byte; only
        a full chunk is sent. */
    method PollWrite(buf: bytes) returns (r: Poll<Result<nat>>)
      requires Valid()
      modifies this
      ensures Valid() && Spent(old(waits), waits, r.Pending?)
      ensures r == Ready(Err) ==> !open
      ensures if r.Ready? && r.value.Ok?
        then
          var n := r.value.value;
          n <= |buf| && (buf != [] ==> n > 0) && accepted == old(accepted) + buf[..n]
        else accepted == old(accepted)
      ensures sent == old(sent) || (|old(buffer)| == chunkSize && sent == old(sent) + [old(buffer)])
      ensures Succeeds(r) && r.value.value < |buf| ==> |buffer| == chunkSize
    {
      hide Concat;
      if |buffer| >= chunkSize {
        var e := PollEmitChunk();
        if e.Pending? {
          return Pending;
        }
        if e.value.Err? {
          return Ready(Err);
        }
      }
      var room := chunkSize - |buffer|;
      assert room > 0;
      var n := if |buf| <= room then |buf| else room;
      assert Concat(sent) + (buffer + buf[..n]) == Concat(sent) + buffer + buf[..n];
      buffer, accepted := buffer + buf[..n], accepted + buf[..n];
      return Ready(Ok(n));
    }
  }

  /** What a `NarWriter` writes to. */
  datatype Output = Plain(sink: Sink) | Channel(channel: ChannelWriter) {
    ghost function Repr(): set<object> {
      if Plain? then {sink} else {channel}
    }

    ghost function Written(): bytes
      reads Repr()
    {
      if Plain? then sink.written else channel.accepted
    }

    ghost function Waits(): nat
      reads Repr()
    {
      if Plain? then sink.waits else channel.waits
    }

    ghost predicate Valid()
      reads Repr()
    {
      Channel? ==> channel.Valid()
    }

    /** It never fails. */
    ghost predicate Steady() { Channel? ==> channel.steady }

    method PollWrite(buf: bytes) returns (r: Poll<Result<nat>>)
      requires Valid() && buf != []
      modifies Repr()
      ensures Valid() && Spent(old(Waits()), Waits(), r.Pending?) && (r == Ready(Err) ==> !Steady())
      ensures if r.Ready? && r.value.Ok?
        then
          var n := r.value.value;
          0 < n <= |buf| && Written() == old(Written()) + buf[..n]
        else Written() == old(Written())
    {
      if Plain? {
        var p := sink.PollWrite(buf);
        r := if p.Pending? then Pending else Ready(Ok(p.value));
      } else {
        r := channel.PollWrite(buf);
      }
    }

    /** `poll_flush`. */
    method PollFlush() returns (r: Poll<Result<()>>)
      requires Valid()
      modifies Repr()
      ensures Valid() && Spent(old(Waits()), Waits(), r.Pending?) && (r == Ready(Err) ==> !Steady())
      ensures Written() == old(Written()) && (Succeeds(r) && Channel? ==> channel.buffer == [])
    {
      if Plain? {
        var stalled := sink.Stalls();
        r := if stalled then Pending else Ready(Ok(()));
      } else {
        r := channel.PollEmitChunk();
      }
    }

    /** `poll_shutdown`. */
    method PollShutdown() returns (r: Poll<Result<()>>)
      requires Valid()
      modifies Repr()
      ensures Valid() && Spent(old(Waits()), Waits(), r.Pending?) && (r == Ready(Err) ==> !Steady())
      ensures Written() == old(Written()) && (Succeeds(r) && Channel? ==> channel.buffer == [])
    {
      if Plain? {
        var p := sink.PollShutdown();
        r := if p.Pending? then Pending else Ready(Ok(()));
      } else {
        r := channel.PollEmitChunk();
      }
    }
  }
}
