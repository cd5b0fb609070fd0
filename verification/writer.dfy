/** `NarWriter`: events go through a small buffer; the contents of files go past it. */
module Writers {
  import opened Wire
  import opened Streams
  import opened Grammar
  import opened EventLog
  import opened Channels

  datatype State = Ready | Flushing(padding: nat) | Eof

  /** An event on its way out; the contents of a file are still to be read. */
  datatype Outgoing =
    | File(name: bytes, executable: bool, size: u64, reader: Source)
    | Symlink(name: bytes, target: bytes)
    | StartDirectory(name: bytes)
    | EndDirectory
  {
    ghost function Event(): NarEvent
      requires File? ==> reader.Valid()
      reads if File? then {reader} else {}
    {
      match this
      case File(name, x, size, r) => FileEvent(name, x, size, r.Rest())
      case Symlink(name, target) => SymlinkEvent(name, target)
      case StartDirectory(name) => Grammar.StartDirectory(name)
      case EndDirectory => Grammar.EndDirectory
    }
  }

  /** What follows the padding of a file. */
  function Closing(level: nat): bytes { TokPar() + Tail(level) }

  /** What is still to be written: while the buffer is flushed, the contents come behind it,
      and the padding behind them; later the buffer holds the padding. */
  ghost function Owing(state: State, buffer: bytes, contents: Option<bytes>, tail: bytes): bytes {
    match contents
    case None => buffer
    case Some(c) => if state.Flushing? then buffer + c + Zeros(state.padding) + tail else c + buffer + tail
  }

  /** A part of the buffer is written. */
  lemma PayBuffer(w: bytes, state: State, buffer: bytes, n: nat, contents: Option<bytes>, tail: bytes)
    requires n <= |buffer| && state.Flushing?
    ensures w + buffer[..n] + Owing(state, buffer[n..], contents, tail) == w + Owing(state, buffer, contents, tail)
  {
    assert buffer == buffer[..n] + buffer[n..];
  }

  /** All of it is written, and the padding takes its place. */
  lemma PayPadding(state: State, next: State, contents: Option<bytes>, tail: bytes)
    requires state.Flushing? && !next.Flushing? && (contents.None? ==> state.padding == 0)
    ensures Owing(next, Zeros(state.padding), contents, tail) == Owing(state, [], contents, tail)
  {}

  /** A part of the contents is written, past the buffer. */
  lemma PayContents(w: bytes, state: State, buffer: bytes, c: bytes, b: bytes, d: bytes, tail: bytes)
    requires !state.Flushing? && c == b + d
    ensures w + b + Owing(state, buffer, Some(d), tail) == w + Owing(state, buffer, Some(c), tail)
  {
    Assoc(b, d, buffer);
    Assoc(b, d + buffer, tail);
    Assoc(w, b, d + buffer + tail);
  }

  lemma PayEnd(state: State, next: State, buffer: bytes, par: bytes, tail: bytes)
    requires !state.Flushing?
    ensures Owing(state, buffer, Some([]), par + tail) == Owing(next, buffer + par + tail, None, par + tail)
  {
    assert [] + buffer == buffer;
  }

  lemma OweNothing(state: State, b: bytes, tail: bytes)
    ensures Owing(state, b, None, tail) == b
  {}

  lemma OweFile(b: bytes, level: nat, name: bytes, x: bool, size: u64, c: bytes)
    requires Fits(name)
    ensures Owing(Flushing(CalcPadding(size)), b + Head(level, name) + TokRegular(x) + LE64(size), Some(c),
      Closing(level)) ==
            b + Sent(level, FileEvent(name, x, size, c))
  {
    hide TokPar, TokRegular, Head, LE64, Tail;
    var h, t, l, z, k := Head(level, name), TokRegular(x), LE64(size), Zeros(CalcPadding(size)), Closing(level);
    assert b + h + t + l + c + z + k == b + (h + t + l + c + z + k);
  }

  lemma OweLink(b: bytes, level: nat, name: bytes, target: bytes)
    requires Fits(name) && Fits(target)
    ensures b + Head(level, name) + TokSym() + Pack(target).Print() + Closing(level) ==
            b + Sent(level, SymlinkEvent(name, target))
  {
    hide TokPar, TokSym, Head, Pack, Tail;
    var h, t, l, k := Head(level, name), TokSym(), Pack(target).Print(), Closing(level);
    assert b + h + t + l + k == b + (h + t + l + k);
  }

  lemma OweStart(b: bytes, level: nat, name: bytes)
    requires Fits(name)
    ensures b + Head(level, name) + TokDir() == b + Sent(level, Grammar.StartDirectory(name))
  {
    hide TokDir, Head;
    Assoc(b, Head(level, name), TokDir());
  }

  lemma OweEnd(level: nat)
    requires level > 0
    ensures Closing(level - 1) == Sent(level, Grammar.EndDirectory)
  {
    hide TokPar;
  }

  class NarWriter {
    const out: Output
    const cutoff: nat
    var state: State
    var buffer: bytes
    var reader: Option<Source>
    var level: nat
    /** What the events sent so far stand for. */
    ghost var log: bytes

    ghost function Repr(): set<object>
      reads this
    {
      {this} + out.Repr() + if reader.Some? then {reader.value} else {}
    }

    ghost function Contents(): Option<bytes>
      requires reader.Some? ==> reader.value.Valid()
      reads this, if reader.Some? then {reader.value} else {}
    {
      if reader.Some? then Some(reader.value.Rest()) else None
    }

    /** How often the output and the reader can still make the writer wait. */
    ghost function Waits(): nat
      reads this, Repr()
    {
      out.Waits() + if reader.Some? then reader.value.waits else 0
    }

    ghost predicate Valid()
      reads this, Repr()
    {
      && out.Valid() && cutoff >= 7 && (reader.Some? ==> reader.value.Valid())
      && (state.Flushing? ==> state.padding < 8 && (reader.None? ==> state.padding == 0))
      && (reader.Some? && !state.Flushing? ==> |buffer| <= 7)
      && out.Written() + Owing(state, buffer, Contents(), Closing(level)) == log
    }

    /** The writer can take an event. */
    predicate IsReady()
      reads this
    {
      reader.None? && !state.Flushing?
    }

    constructor (out: Output, cutoff: nat)
      requires cutoff >= 7 && out.Valid()
      ensures Valid() && IsReady() && this.out == out && level == 0 && log == out.Written() && reader == None
    {
      this.out, this.cutoff := out, cutoff;
      state, buffer, reader, level, log := State.Ready, [], None, 0, out.Written();
    }

    /** The padding never overtakes the contents: what was written is in order. */
    lemma Behind()
      requires Valid()
      ensures out.Written() <= log
    {
      hide Owing;
    }

    /** Write out the buffer, and put the padding into it. */
    method FlushBuffer() returns (r: Poll<Result<()>>)
      requires Valid() && state.Flushing?
      modifies this, out.Repr()
      ensures Valid() && log == old(log) && level == old(level) && reader == old(reader)
      ensures Spent(old(out.Waits()), out.Waits(), r.Pending?) && (r == Poll.Ready(Err) ==> !out.Steady())
      ensures Succeeds(r) ==> !state.Flushing? && (reader.None? ==> buffer == [])
    {
      hide TokPar, Owing, ChannelWriter.Valid;
      ghost var c, tail := Contents(), Closing(level);
      while buffer != []
        invariant Valid() && state == old(state) && log == old(log) && level == old(level) && reader == old(reader)
        invariant Contents() == c && out.Waits() <= old(out.Waits())
        decreases |buffer|
      {
        ghost var w := out.Written();
        var n := out.PollWrite(buffer);
        if n.Pending? {
          return Pending;
        }
        if n.value.Err? {
          return Poll.Ready(Err);
        }
        PayBuffer(w, state, buffer, n.value.value, c, tail);
        buffer := buffer[n.value.value..];
      }
      PayPadding(state, if level == 0 then Eof else State.Ready, c, tail);
      buffer := Zeros(state.padding);
      state := if level == 0 then Eof else State.Ready;
      r := Poll.Ready(Ok(()));
    }

    /** Write the contents of the file, then close it. */
    method CopyContents() returns (r: Poll<Result<()>>)
      requires Valid() && !state.Flushing? && reader.Some?
      modifies this, out.Repr(), reader.value
      ensures Valid() && log == old(log) && level == old(level)
      ensures reader == if Succeeds(r) then None else old(reader)
      ensures out.Waits() <= old(out.Waits())
      ensures r.Pending? ==> Waits() < old(Waits())
      ensures r == Poll.Ready(Err) ==> !out.Steady() && Waits() <= old(Waits())
      ensures Succeeds(r) ==> IsReady() && |buffer| <= 39
    {
      hide TokPar, Owing, ChannelWriter.Valid;
      ghost var tail := Closing(level);
      var source := reader.value;
      while true
        invariant Valid() && !state.Flushing? && log == old(log) && level == old(level) && reader == old(reader)
        invariant source == reader.value && source.Valid()
        invariant out.Waits() <= old(out.Waits()) && source.waits <= old(source.waits)
        decreases |source.data| - source.pos
      {
        var f := source.PollFillBuf();
        if f.Pending? {
          return Pending;
        }
        if f.value == [] {
          break;
        }
        ghost var c, w := source.Rest(), out.Written();
        assert c != [];
        var n := out.PollWrite(f.value);
        if n.Pending? {
          return Pending;
        }
        if n.value.Err? {
          return Poll.Ready(Err);
        }
        source.Consume(n.value.value);
        PayContents(w, state, buffer, c, f.value[..n.value.value], source.Rest(), tail);
      }
      CloseFile();
      r := Poll.Ready(Ok(()));
    }

    /** All contents are written. */
    method CloseFile()
      requires Valid() && !state.Flushing? && reader.Some? && Contents() == Some([])
      modifies this
      ensures Valid() && log == old(log) && level == old(level) && IsReady() && |buffer| <= old(|buffer|) + 32
    {
      hide TokPar, Owing, ChannelWriter.Valid;
      TokenLengths();
      PayEnd(state, if level == 0 then Eof else state, buffer, TokPar(), Tail(level));
      buffer := buffer + TokPar();
      if level == 0 {
        assert buffer + [] == buffer;
        state := Eof;
      } else {
        buffer := buffer + TokPar();
      }
      reader := None;
    }

    /** `poll_ready`. It asks its caller to wait only if the output or the reader makes it wait. When
        it is ready, the buffer is within the cutoff, or holds the end of a file. */
    method PollReady() returns (r: Poll<Result<()>>)
      requires Valid()
      modifies Repr()
      ensures Valid() && log == old(log) && level == old(level) && Repr() <= old(Repr())
      ensures Spent(old(Waits()), Waits(), r.Pending?) && (r == Poll.Ready(Err) ==> !out.Steady())
      ensures Succeeds(r) ==> IsReady()
      ensures Succeeds(r) && old(state.Flushing? && reader.None?) ==> buffer == []
      ensures Succeeds(r) ==> |buffer| <= if old(reader.Some?) then 39 else cutoff
    {
      hide TokPar, Tail, ChannelWriter.Valid;
      if !state.Flushing? && |buffer| > cutoff {
        state := Flushing(0);
      }
      if state.Flushing? {
        var f := FlushBuffer();
        if !Succeeds(f) {
          return f;
        }
      }
      if reader.Some? {
        var c := CopyContents();
        return c;
      }
      r := Poll.Ready(Ok(()));
    }

    /** `poll_flush_buf`: afterwards everything is written. */
    method PollFlushBuf() returns (r: Poll<Result<()>>)
      requires Valid()
      modifies Repr()
      ensures Valid() && log == old(log) && level == old(level) && Repr() <= old(Repr())
      ensures Spent(old(Waits()), Waits(), r.Pending?) && (r == Poll.Ready(Err) ==> !out.Steady())
      ensures Succeeds(r) ==> IsReady() && out.Written() == log
    {
      hide TokPar, Tail, ChannelWriter.Valid;
      while true
        invariant Valid() && log == old(log) && level == old(level) && Repr() <= old(Repr())
        invariant Waits() <= old(Waits())
        decreases !(state.Flushing? && reader.None?)
      {
        var p := PollReady();
        if !Succeeds(p) {
          return p;
        }
        if buffer == [] {
          break;
        }
        state := Flushing(0);
      }
      assert out.Written() + [] == log;
      r := Poll.Ready(Ok(()));
    }

    /** `poll_flush`. */
    method PollFlush() returns (r: Poll<Result<()>>)
      requires Valid()
      modifies Repr()
      ensures Valid() && log == old(log) && level == old(level) && Repr() <= old(Repr())
      ensures Spent(old(Waits()), Waits(), r.Pending?) && (r == Poll.Ready(Err) ==> !out.Steady())
      ensures Succeeds(r) ==> IsReady() && out.Written() == log && (out.Channel? ==> out.channel.buffer == [])
    {
      hide Owing, TokPar, Tail, ChannelWriter.Valid;
      r := PollFlushBuf();
      if Succeeds(r) {
        r := out.PollFlush();
      }
    }

    /** `poll_close`: flush, then shut the output down. */
    method PollClose() returns (r: Poll<Result<()>>)
      requires Valid()
      modifies Repr()
      ensures Valid() && log == old(log) && level == old(level) && Repr() <= old(Repr())
      ensures Spent(old(Waits()), Waits(), r.Pending?) && (r == Poll.Ready(Err) ==> !out.Steady())
      ensures Succeeds(r) ==> out.Written() == log && (out.Channel? ==> out.channel.buffer == [])
    {
      hide Owing, TokPar, Tail, ChannelWriter.Valid;
      r := PollFlushBuf();
      if Succeeds(r) {
        r := out.PollShutdown();
      }
    }

    /** The bytes that introduce a node. */
    method PutHead(name: bytes)
      requires Fits(name)
      modifies this`buffer
      ensures buffer == old(buffer) + Head(level, name)
    {
      hide TokEntry, TokNode, TokRoot;
      if level == 0 {
        buffer := buffer + TokRoot();
      } else {
        buffer := buffer + TokEntry();
        PutNixSlice(name);
        buffer := buffer + TokNode();
      }
    }

    method PutNixSlice(src: bytes)
      requires Fits(src)
      modifies this`buffer
      ensures buffer == old(buffer) + Pack(src).Print()
    {
      hide LE64;
      ghost var b := buffer;
      buffer := buffer + LE64(|src|);
      buffer := buffer + src;
      buffer := buffer + Zeros(CalcPadding(|src|));
      assert buffer == b + (LE64(|src|) + (src + Zeros(CalcPadding(|src|))));
    }

    /** The first part of a file; its contents and its padding come later. */
    method SendFile(name: bytes, x: bool, size: u64, r: Source)
      requires Valid() && IsReady() && r.Valid() && Fits(name)
      modifies this
      ensures Valid() && level == old(level) && reader == Some(r)
      ensures log == old(log) + Sent(level, FileEvent(name, x, size, r.Rest()))
    {
      hide TokPar, TokDir, TokSym, TokRegular, Head, LE64, Closing, Pack, Owing, Sent, ChannelWriter.Valid;
      ghost var w, b := out.Written(), buffer;
      OweNothing(state, b, Closing(level));
      OweFile(b, level, name, x, size, r.Rest());
      Assoc(w, b, Sent(level, FileEvent(name, x, size, r.Rest())));
      log := log + Sent(level, FileEvent(name, x, size, r.Rest()));
      PutHead(name);
      buffer := buffer + TokRegular(x);
      buffer := buffer + LE64(size);
      state := Flushing(CalcPadding(size));
      reader := Some(r);
    }

    /** Everything else goes into the buffer. */
    method SendOther(item: Outgoing)
      requires Valid() && IsReady() && !item.File? && Sendable(item.Event()) && (item.EndDirectory? ==> level > 0)
      modifies this
      ensures Valid() && level == NextLevel(old(level), item.Event()) && reader == None
      ensures log == old(log) + Sent(old(level), item.Event())
    {
      hide TokPar, TokDir, TokSym, TokRegular, Head, LE64, Closing, Pack, Owing, Sent, ChannelWriter.Valid;
      ghost var w, b, l, e := out.Written(), buffer, level, item.Event();
      OweNothing(state, b, Closing(l));
      PutOther(item);
      log := log + Sent(l, e);
      Assoc(w, b, Sent(l, e));
      OweNothing(state, buffer, Closing(level));
    }

    method PutOther(item: Outgoing)
      requires !item.File? && Sendable(item.Event()) && (item.EndDirectory? ==> level > 0) && !state.Flushing?
      modifies this`buffer, this`state, this`level
      ensures level == NextLevel(old(level), item.Event()) && !state.Flushing?
      ensures buffer == old(buffer) + Sent(old(level), item.Event())
    {
      hide TokPar, TokDir, TokSym, Head, LE64, Closing, Pack, Sent;
      ghost var b, l := buffer, level;
      match item
      case Symlink(name, target) =>
        PutHead(name);
        buffer := buffer + TokSym();
        PutNixSlice(target);
        PutEnd();
        OweLink(b, l, name, target);
      case StartDirectory(name) =>
        PutHead(name);
        buffer := buffer + TokDir();
        level := level + 1;
        OweStart(b, l, name);
      case EndDirectory =>
        level := level - 1;
        PutEnd();
        OweEnd(l);
    }

    /** `start_send`: the writer owes the bytes of one more event. */
    method StartSend(item: Outgoing)
      requires Valid() && IsReady()
      requires (item.File? ==> item.reader.Valid()) && Sendable(item.Event()) && (item.EndDirectory? ==> level > 0)
      modifies this
      ensures Valid() && level == NextLevel(old(level), item.Event())
      ensures log == old(log) + Sent(old(level), item.Event())
      ensures reader == if item.File? then Some(item.reader) else None
      ensures Waits() == old(Waits()) + if item.File? then item.reader.waits else 0
    {
      hide Sent, Owing, Closing, ChannelWriter.Valid;
      if item.File? {
        SendFile(item.name, item.executable, item.size, item.reader);
      } else {
        SendOther(item);
      }
    }

    /** The end of a node. */
    method PutEnd()
      requires !state.Flushing?
      modifies this`buffer, this`state
      ensures buffer == old(buffer) + Closing(level) && !state.Flushing?
    {
      hide TokPar;
      buffer := buffer + TokPar();
      if level == 0 {
        state := Eof;
      } else {
        buffer := buffer + TokPar();
      }
    }
  }

  /** An event whose contents come from a stream of their own, which makes the writer wait at most
      `slack` times. */
  method Outgo(e: NarEvent, slack: nat) returns (item: Outgoing)
    ensures item.File? ==> fresh(item.reader) && item.reader.Valid() && item.reader.waits <= slack
    ensures item.Event() == e
  {
    match e
    case FileEvent(name, x, size, contents) =>
      var waits: nat :| waits <= slack;
      var r := new Source(contents, waits);
      item := File(name, x, size, r);
    case SymlinkEvent(name, target) => item := Outgoing.Symlink(name, target);
    case StartDirectory(name) => item := Outgoing.StartDirectory(name);
    case EndDirectory => item := Outgoing.EndDirectory;
  }

  /** Send an event if the writer is ready. */
  method SendOne(w: NarWriter, e: NarEvent, slack: nat) returns (r: Poll<Result<()>>)
    requires w.Valid() && Sendable(e) && (e.EndDirectory? ==> w.level > 0)
    modifies w.Repr()
    ensures w.Valid() && fresh(w.Repr() - old(w.Repr())) && (r == Poll.Ready(Err) ==> !w.out.Steady())
    ensures r.Pending? ==> w.Waits() < old(w.Waits())
    ensures if Succeeds(r)
      then
        && w.level == NextLevel(old(w.level), e) && w.log == old(w.log) + Sent(old(w.level), e)
        && w.Waits() <= old(w.Waits()) + slack
      else w.level == old(w.level) && w.log == old(w.log)
  {
    hide Sent, NextLevel, Sendable, Owing, Closing, ChannelWriter.Valid;
    r := w.PollReady();
    if !Succeeds(r) {
      return;
    }
    var item := Outgo(e, slack);
    w.StartSend(item);
  }

  /** A whole run: the events are sent one after the other, as the writer becomes ready, flushed when
      the sender likes, and at last it is closed; all within `polls` polls. At every moment a prefix of what the events
      stand for is written, and after the close all of it. With more polls than the output and
      the files make the writer wait and than there are events, the run comes to the close. */
  method Send(w: NarWriter, events: seq<NarEvent>, slack: nat, polls: nat) returns (closed: bool, failed: bool)
    requires w.Valid() && Bracketed(w.level, events)
    modifies w.Repr()
    ensures w.Valid() && w.out.Written() <= old(w.log) + Log(old(w.level), events)
    ensures closed ==>
      w.out.Written() == old(w.log) + Log(old(w.level), events) && (w.out.Channel? ==> w.out.channel.buffer == [])
    ensures failed ==> !w.out.Steady()
    ensures polls > old(w.Waits()) + |events| * (slack + 1) ==> closed || failed
    decreases polls
  {
    hide Sent, Sendable, Log, Bracketed, NextLevel, NarWriter.Valid, ChannelWriter.Valid;
    LogNothing(w.level);
    w.Behind();
    if polls == 0 {
      return false, false;
    }
    if * {
      var f := w.PollFlush();
      w.Behind();
      if f.Pending? {
        closed, failed := Send(w, events, slack, polls - 1);
        return;
      }
      if f.value.Err? {
        return false, true;
      }
    }
    if events == [] {
      var r := w.PollClose();
      w.Behind();
      if r.Pending? {
        closed, failed := Send(w, events, slack, polls - 1);
      } else {
        closed, failed := r.value.Ok?, r.value.Err?;
      }
      return;
    }
    LogStep(w.level, events, w.log);
    var r := SendOne(w, events[0], slack);
    w.Behind();
    if r.Pending? {
      closed, failed := Send(w, events, slack, polls - 1);
    } else if r.value.Err? {
      closed, failed := false, true;
    } else {
      OneLess(|events|, slack);
      closed, failed := Send(w, events[1..], slack, polls - 1);
    }
  }

  lemma OneLess(n: nat, slack: nat)
    requires n > 0
    ensures n * (slack + 1) == (n - 1) * (slack + 1) + slack + 1
  {}
}
