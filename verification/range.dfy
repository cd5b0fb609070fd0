/** `create_range_stream`, which cuts a byte range out of chunks, and the reply that it makes. */
module Ranges {
  import opened Wire
  import opened Streams
  import opened Grammar
  import opened Channels
  import EventLog
  import Writers

  // ---------- the range ----------

  /** The part of `s` from `a` to `b`, as far as there is one. */
  function Cut(s: bytes, a: int, b: int): bytes {
    var lo := if a < 0 then 0 else Min(a, |s|);
    var hi := if b < lo then lo else Min(b, |s|);
    s[lo..hi]
  }

  lemma SliceAppend(s: bytes, t: bytes, lo: nat, hi: nat)
    requires lo <= hi <= |s + t|
    ensures hi <= |s| ==> (s + t)[lo..hi] == s[lo..hi]
    ensures lo >= |s| ==> (s + t)[lo..hi] == t[lo - |s|..hi - |s|]
    ensures lo <= |s| <= hi ==> (s + t)[lo..hi] == s[lo..] + t[..hi - |s|]
  {
    var w := (s + t)[lo..hi];
    assert forall i | 0 <= i < hi - lo :: w[i] == (s + t)[lo + i];
    assert forall i | 0 <= i < hi - lo :: w[i] == if lo + i < |s| then s[lo + i] else t[lo + i - |s|];
  }

  lemma CutAppend(s: bytes, t: bytes, a: int, b: int)
    ensures Cut(s + t, a, b) == Cut(s, a, b) + Cut(t, a - |s|, b - |s|)
  {
    var lo := if a < 0 then 0 else Min(a, |s + t|);
    var hi := if b < lo then lo else Min(b, |s + t|);
    SliceAppend(s, t, lo, hi);
  }

  lemma CutPrefix(s: bytes, whole: bytes, a: nat, b: nat)
    requires s <= whole
    ensures Cut(s, a, b) <= Cut(whole, a, b)
  {
    var t := whole[|s|..];
    assert whole == s + t;
    CutAppend(s, t, a, b);
  }

  /** The data of a stream of chunks and errors. */
  function Data(stream: seq<Result<bytes>>): bytes {
    if stream == [] then []
    else (if stream[0].Ok? then stream[0].value else []) + Data(stream[1..])
  }

  /** What the next chunk has of the range, when `sent` bytes have passed. */
  lemma NextChunk(data: bytes, rest: bytes, offset: nat, length: nat, sent: nat)
    ensures Cut(data + rest, offset - sent, offset + length - sent) ==
            Cut(data, offset - sent, offset + length - sent) +
            Cut(rest, offset - (sent + |data|), offset + length - (sent + |data|))
    ensures sent + |data| <= offset ==> Cut(data, offset - sent, offset + length - sent) == []
    ensures sent + |data| > offset ==>
      var start := if sent < offset then offset - sent else 0;
      var remaining := length - Min(if sent > offset then sent - offset else 0, length);
      var end := Min(start + remaining, |data|);
      && (remaining == 0 ==> Cut(data + rest, offset - sent, offset + length - sent) == [])
      && Cut(data, offset - sent, offset + length - sent) == if start < end then data[start..end] else []
  {
    CutAppend(data, rest, offset - sent, offset + length - sent);
  }

  lemma DataFirst(stream: seq<Result<bytes>>)
    requires stream != []
    ensures Data(stream) == if stream[0].Ok? then stream[0].value + Data(stream[1..]) else Data(stream[1..])
  {}

  lemma {:induction false} DataAppend(stream: seq<Result<bytes>>, x: Result<bytes>)
    ensures Data(stream + [x]) == Data(stream) + if x.Ok? then x.value else []
  {
    if stream == [] {
      assert [x][1..] == [];
    } else {
      assert (stream + [x])[1..] == stream[1..] + [x];
      DataAppend(stream[1..], x);
      Assoc(if stream[0].Ok? then stream[0].value else [], Data(stream[1..]), if x.Ok? then x.value else []);
    }
  }

  /** Chunk `i` ends the reply: it reaches beyond the offset, and nothing from it on is in the range. */
  ghost predicate Stops(stream: seq<Result<bytes>>, offset: nat, length: nat, i: nat) {
    && i < |stream| && stream[i].Ok? && offset < |Data(stream[..i + 1])|
    && (length == 0 || offset + length <= |Data(stream[..i])|)
  }

  /** The reply gets as far as item `i`: no chunk before it ends it. */
  ghost predicate Reaches(stream: seq<Result<bytes>>, offset: nat, length: nat, i: nat) {
    forall j: nat | j < i :: !Stops(stream, offset, length, j)
  }

  /** What one more item does. */
  lemma ReadOne(stream: seq<Result<bytes>>, offset: nat, length: nat, i: nat)
    requires i < |stream|
    ensures var x, sent := stream[i], |Data(stream[..i])|;
      && stream[i..][1..] == stream[i + 1..] && |Data(stream[..i + 1])| == sent + (if x.Ok? then |x.value| else 0)
      && (Stops(stream, offset, length, i) <==>
            x.Ok? && offset < sent + |x.value| && (length == 0 || offset + length <= sent))
  {
    hide Data;
    DataAppend(stream[..i], stream[i]);
    assert stream[..i + 1] == stream[..i] + [stream[i]];
  }

  /** What one round of the loop comes to. */
  datatype Round = Fail | Finish | Emit(slice: bytes) | Skip

  class RangeStream {
    var stream: seq<Result<bytes>>
    const offset: nat
    const length: nat
    var sent: nat
    /** The whole stream, and how many items of it were read. */
    ghost const whole: seq<Result<bytes>>
    ghost var read: nat

    ghost predicate Valid()
      reads this
    {
      read <= |whole| && stream == whole[read..] && sent == |Data(whole[..read])|
    }

    /** What is still to come of the range. */
    ghost function ToCome(): bytes
      reads this
    {
      Cut(Data(stream), offset - sent, offset + length - sent)
    }

    constructor (stream: seq<Result<bytes>>, offset: nat, length: nat)
      ensures Valid() && whole == stream && read == 0 && this.offset == offset && this.length == length
      ensures ToCome() == Cut(Data(stream), offset, offset + length)
    {
      this.stream, this.offset, this.length, sent := stream, offset, length, 0;
      whole, read := stream, 0;
    }

    /** One round of the loop. */
    method Round() returns (r: Round)
      requires Valid() && stream != []
      modifies this
      ensures read == old(read) + 1 <= |whole|
      ensures r.Fail? <==> whole[old(read)].Err?
      ensures r.Finish? <==> Stops(whole, offset, length, old(read))
      ensures r.Finish? ==> old(ToCome()) == []
      ensures !r.Finish? ==> Valid() && old(ToCome()) == (if r.Emit? then r.slice else []) + ToCome()
      ensures r.Emit? ==> r.slice != []
    {
      hide Cut, Data, Stops;
      var first := stream[0];
      DataFirst(stream);
      ReadOne(whole, offset, length, read);
      stream, read := stream[1..], read + 1;
      if first.Err? {
        return Fail;
      }
      var data := first.value;
      NextChunk(data, Data(stream), offset, length, sent);
      if sent + |data| <= offset {
        sent := sent + |data|;
        return Skip;
      }
      var start := if sent < offset then offset - sent else 0;
      var remaining := length - Min(if sent > offset then sent - offset else 0, length);
      if remaining == 0 {
        return Finish;
      }
      var end := Min(start + remaining, |data|);
      sent := sent + |data|;
      return if start < end then Emit(data[start..end]) else Skip;
    }

    /** One item of the stream. An error comes out as soon as it is read; an end means that the range
        is complete, and comes when the stream ends or a chunk ends the reply. */
    method Next() returns (r: Option<Result<bytes>>)
      requires Valid()
      modifies this
      ensures old(read) <= read <= |whole|
      ensures forall j: nat | old(read) <= j < read - 1 :: whole[j].Ok? && !Stops(whole, offset, length, j)
      ensures r.Some? && r.value.Ok? ==> r.value.value != [] && old(ToCome()) == r.value.value + ToCome()
      ensures r == Some(Err) ==> ToCome() == old(ToCome())
      ensures r.None? ==> old(ToCome()) == []
      ensures r.Some? ==>
        Valid() && read > old(read) && r.value.Ok? == whole[read - 1].Ok? && !Stops(whole, offset, length, read - 1)
      ensures r.None? && read > old(read) ==> whole[read - 1].Ok?
      ensures r.None? && read < |whole| ==> read > old(read) && Stops(whole, offset, length, read - 1)
    {
      hide Cut, Data, Stops;
      while stream != []
        invariant Valid() && old(read) <= read && ToCome() == old(ToCome())
        invariant forall j: nat | old(read) <= j < read :: whole[j].Ok? && !Stops(whole, offset, length, j)
        decreases |whole| - read
      {
        StopsIsOk(whole, offset, length, read);
        var round := Round();
        match round
        case Fail => return Some(Err);
        case Finish => return None;
        case Emit(slice) => return Some(Ok(slice));
        case Skip =>
      }
      NothingLeft(offset - sent, offset + length - sent);
      assert read > old(read) ==> !Stops(whole, offset, length, read - 1);
      return None;
    }
  }

  lemma StopsIsOk(stream: seq<Result<bytes>>, offset: nat, length: nat, i: nat)
    requires i < |stream|
    ensures Stops(stream, offset, length, i) ==> stream[i].Ok?
  {}

  lemma NothingLeft(a: int, b: int)
    ensures Cut(Data([]), a, b) == []
  {}

  // ---------- a range reply ----------

  /** The reply gets as far as an error. */
  ghost predicate MeetsError(stream: seq<Result<bytes>>, offset: nat, length: nat) {
    exists i: nat | i < |stream| :: stream[i].Err? && Reaches(stream, offset, length, i)
  }

  /** All of a range stream: a slice of the data, for every chunking of it; and an error exactly if
      there is one before a chunk that ends the reply. */
  method Collect(stream: seq<Result<bytes>>, offset: nat, length: nat) returns (out: bytes, failed: bool)
    ensures out == Cut(Data(stream), offset, offset + length)
    ensures failed <==> MeetsError(stream, offset, length)
  {
    hide Cut, Data, Stops;
    var s := new RangeStream(stream, offset, length);
    ghost var whole := s.ToCome();
    out, failed := [], false;
    while true
      invariant fresh(s) && s.Valid() && s.whole == stream && s.offset == offset && s.length == length
      invariant out + s.ToCome() == whole && Reaches(stream, offset, length, s.read)
      invariant failed <==> exists i: nat | i < s.read :: stream[i].Err?
      decreases |stream| - s.read
    {
      ghost var from := s.read;
      var r := s.Next();
      assert forall i: nat | i < s.read - 1 && stream[i].Err? :: i < from;
      if r.None? {
        return;
      }
      if r.value.Ok? {
        out := out + r.value.value;
      } else {
        failed := true;
      }
    }
  }

  lemma CutIsSlice(s: bytes, offset: nat, length: nat)
    ensures Cut(s, offset, offset + length) == s[Min(offset, |s|)..Min(offset + length, |s|)]
  {}

  function AsStream(chunks: seq<bytes>): seq<Result<bytes>> {
    seq(|chunks|, i requires 0 <= i < |chunks| => Ok(chunks[i]))
  }

  lemma {:induction false} DataIsConcat(chunks: seq<bytes>)
    ensures Data(AsStream(chunks)) == Concat(chunks)
  {
    if chunks != [] {
      DataIsConcat(chunks[1..]);
      assert AsStream(chunks)[1..] == AsStream(chunks[1..]);
    }
  }

  /** A range reply: the events of a tree are written through the channel, and the range is cut
      out of the chunks. It is the start of that slice of the encoding of the tree, whatever
      happens, and all of it with enough polls if the receiver of the channel stays. */
  method RangeReply(t: Node<bytes>, cutoff: nat, chunkSize: nat, waits: nat, steady: bool, slack: nat,
                    offset: nat, length: nat, polls: nat)
      returns (reply: bytes, done: bool)
    requires Encodable(t) && cutoff >= 7 && chunkSize > 0
    ensures var nar := Encode(t);
      var slice := nar[Min(offset, |nar|)..Min(offset + length, |nar|)];
      reply <= slice && (done ==> reply == slice)
    ensures steady && polls > waits + |Events([], t)| * (slack + 1) ==> done
  {
    hide Encode, Events, Cut, Data, Concat, EventLog.Log, EventLog.Bracketed, Writers.Owing;
    EventLog.LogIsEncode(t);
    var channel := new ChannelWriter(chunkSize, waits, steady);
    var w := new Writers.NarWriter(Channel(channel), cutoff);
    var closed, failed := Writers.Send(w, Events([], t), slack, polls);
    assert [] + Encode(t) == Encode(t);
    var chunks := channel.sent;
    assert Concat(chunks) + [] == Concat(chunks);
    assert closed ==> Concat(chunks) == Encode(t);
    DataIsConcat(chunks);
    CutIsSlice(Encode(t), offset, length);
    assert Concat(chunks) <= channel.accepted && channel.accepted <= Encode(t);
    CutPrefix(Concat(chunks), Encode(t), offset, offset + length);
    var bad;
    reply, bad := Collect(AsStream(chunks), offset, length);
    done := closed && !bad;
  }
}
