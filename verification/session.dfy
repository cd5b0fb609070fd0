/** Whole runs: a parser that is polled again and again, and consumers that read any part of
    each file before they let go of it. */
module Sessions {
  import opened Wire
  import opened Streams
  import opened Grammar
  import opened Parsing
  import opened PaddedReaders
  import opened NarReaders
  import opened NarMachine
  import opened Lendings
  import opened Compat
  import opened Parsers
  import EventLog
  import Channels
  import Writers

  /** The event with a part of the contents. */
  ghost predicate Abridges(e: NarEvent, whole: NarEvent) {
    if e.FileEvent? && whole.FileEvent?
    then e.(contents := []) == whole.(contents := []) && e.contents <= whole.contents
    else e == whole
  }

  /** One poll of a consumer, which consumes some of what it is offered; an eager one takes at
      least a byte. The end of the sub-stream is told by an end of the loan. */
  method Sip(c: BufReadCompat, eager: bool) returns (r: Poll<Result<bytes>>)
    requires c.Valid() && c.reader.inner.Some?
    modifies c.Repr()
    ensures Spent(old(c.reader.sub.Source().waits), c.reader.sub.Source().waits, r.Pending?)
    ensures r.Pending? ==> c.Valid() && c.seen == old(c.seen) && c.reader.inner.Some?
    ensures r.Ready? && r.value.Ok? ==> c.Valid() && c.seen == old(c.seen) + r.value.value
    ensures r.Ready? && r.value.Ok? && eager && c.reader.inner.Some? ==> r.value.value != []
    ensures Succeeds(r) && c.reader.inner.None? ==> c.reader.sub.AtEnd()
    ensures forall end: nat | c.reader.sub.IsWhole(end) ::
      && r != Ready(Err)
      && (r.Ready? ==>
            && c.reader.sub.Next() <= c.reader.sub.Last(end)
            && (c.reader.inner.None? ==> c.reader.sub.Next() == c.reader.sub.Last(end)))
  {
    hide PaddedReader.Valid, NarReader.Valid, SubReader.IsWhole, SubReader.AtEnd;
    var f := c.PollFillBuf();
    if f.Pending? || f.value.Err? {
      return f;
    }
    var b := f.value.value;
    if b == [] {
      return Ready(Ok([]));
    }
    var k :| (if eager then 1 else 0) <= k <= |b|;
    c.Consume(k);
    return Ready(Ok(b[..k]));
  }

  /** Some consumer of a sub-stream: it polls and consumes as it likes, then lets go. A patient one
      takes at least a byte whenever there is one, and reads to the end. If it still holds on after
      its polls, each of them was spent on a wait of the stream or on a byte. */
  method Use(c: BufReadCompat, patient: bool, polls: nat) returns (got: bytes, failed: bool)
    requires c.Valid() && c.seen == [] && c.reader.inner.Some?
    requires forall end: nat | c.reader.sub.IsWhole(end) :: c.first <= c.reader.sub.Last(end)
    modifies c.Repr()
    ensures !failed ==> c.reader.Valid()
    ensures c.reader.sub.Source().waits <= old(c.reader.sub.Source().waits)
    ensures !failed && c.reader.inner.Some? ==>
      patient && polls <= old(c.reader.sub.Source().waits) - c.reader.sub.Source().waits + |got|
    ensures c.Took(got)
    ensures !failed && patient && c.reader.inner.None? ==> c.reader.sub.AtEnd()
    ensures forall end: nat | c.reader.sub.IsWhole(end) ::
      && !failed && c.first + |got| <= c.reader.sub.Last(end)
      && (patient && c.reader.inner.None? ==> c.first + |got| == c.reader.sub.Last(end))
  {
    hide SubReader.Valid, SubReader.IsWhole, SubReader.AtEnd, Loan.Valid, BufReadCompat.Valid, BufReadCompat.Took;
    got := [];
    ghost var source := c.reader.sub.Source();
    c.Taken();
    var n := polls;
    while n > 0
      invariant c.Valid() && c.reader.Valid() && got == c.seen && c.Took(got) && c.reader.inner.Some?
      invariant |got| == c.reader.sub.Next() - c.first
      invariant forall end: nat | c.reader.sub.IsWhole(end) :: c.first + |got| <= c.reader.sub.Last(end)
      invariant source.waits <= old(source.waits)
      invariant patient ==> polls - n <= old(source.waits) - source.waits + |got|
    {
      n := n - 1;
      var f := Sip(c, patient);
      if f.Ready? {
        if f.value.Err? {
          return got, true;
        }
        got := got + f.value.value;
      }
      c.Taken();
      if c.reader.inner.None? {
        return got, false;
      }
    }
    if !patient {
      c.Drop();
    }
    return got, false;
  }

  lemma PartOfFile(data: bytes, first: nat, size: nat, got: bytes, contents: bytes)
    requires first + |got| <= |data| && got == data[first..first + |got|] && |got| <= size
    requires contents == data[first..][..Min(size, |data| - first)]
    ensures got <= contents && (|got| == size ==> got == contents)
  {}

  /** What was read of a file, as an event. */
  lemma PartialEvent(item: Item, e: NarEvent, got: bytes)
    requires item.FileItem? && Describes(item, e)
    ensures item.contents.reader.sub.Padded? && item.contents.reader.sub.padded.start == item.contents.first
    ensures item.contents.reader.sub.padded.len == item.size
    ensures item.contents.Took(got) ==>
      var part := FileEvent(item.name, item.executable, item.size, got);
      Abridges(part, e) && (|got| == item.size ==> part == e) && |got| <= |item.contents.reader.sub.Source().data|
  {
    if item.contents.Took(got) {
      PartOfFile(item.contents.reader.sub.padded.source.data, item.contents.first, item.size, got, e.contents);
    }
  }

  /** What was read of a file by some consumer. */
  method UseFile(item: Item, ghost p: PaddedReader, ghost whole: NarEvent, patient: bool, polls: nat)
      returns (e: NarEvent, failed: bool, holds: bool)
    requires item.FileItem? && Describes(item, whole) && item.contents.reader.sub == Padded(p)
    requires item.contents.Valid() && item.contents.seen == [] && item.contents.reader.inner.Some?
    modifies item.contents.Repr()
    ensures holds == item.contents.reader.inner.Some? && (!failed ==> item.contents.reader.Valid())
    ensures p.source.waits <= old(p.source.waits) && Abridges(e, whole)
    ensures p.Whole() ==> !failed && (patient && !holds ==> e == whole)
    ensures !failed && holds ==> polls <= old(p.source.waits) - p.source.waits + |p.source.data|
  {
    hide SubReader.Valid, SubReader.IsWhole, SubReader.EndsAt, SubReader.AtEnd, BufReadCompat.Valid,
      BufReadCompat.Took, Loan.Valid, Describes, Abridges;
    PartialEvent(item, whole, []);
    item.contents.reader.sub.Ends();
    var got;
    got, failed := Use(item.contents, patient, polls);
    e, holds := FileEvent(item.name, item.executable, item.size, got), item.contents.reader.inner.Some?;
    PartialEvent(item, whole, got);
  }

  /** The consumer of a file. The parser is as good as before, or the stream ends too early. */
  method TakeFile(parser: NarParser, item: Item, patient: bool, polls: nat, ghost before: Trace)
      returns (e: NarEvent, failed: bool, holds: bool)
    requires parser.Outcome(Emit(item), before) && item.FileItem?
    modifies item.contents.Repr()
    ensures parser.plan == before.next
    ensures Abridges(e, before.event) && (patient && !holds ==> e == before.event || parser.plan.Bad?)
    ensures if failed then parser.plan.Bad? else parser.Valid() && parser.Repr() == old(parser.Repr())
    ensures parser.source.waits <= old(parser.source.waits)
    ensures !failed && holds ==> polls <= old(parser.source.waits) - parser.source.waits + |parser.source.data|
    ensures !failed && !holds ==> !parser.reader.IsOut()
  {
    hide NarParser.Valid, SubReader.Valid, BufReadCompat.Valid, Loan.Valid, Describes, Abridges;
    parser.TooShort(item.contents.reader);
    e, failed, holds := UseFile(item, item.contents.reader.sub.padded, before.event, patient, polls);
    if !failed {
      parser.StillValid(item.contents.reader);
    }
  }

  /** The consumer of one item. */
  method Take(parser: NarParser, item: Item, patient: bool, polls: nat, ghost before: Trace)
      returns (e: NarEvent, failed: bool, holds: bool)
    requires parser.Outcome(Emit(item), before)
    modifies if item.FileItem? then item.contents.Repr() else {}
    ensures parser.plan == before.next
    ensures Abridges(e, before.event) && (patient && !holds ==> e == before.event || parser.plan.Bad?)
    ensures if failed then parser.plan.Bad? else parser.Valid() && parser.Repr() == old(parser.Repr())
    ensures parser.source.waits <= old(parser.source.waits)
    ensures !failed && holds ==> polls <= old(parser.source.waits) - parser.source.waits + |parser.source.data|
    ensures !failed && !holds ==> !parser.reader.IsOut()
  {
    hide NarParser.Expects, SubReader.Valid, Inner.Valid;
    holds, failed := false, false;
    match item
    case SymlinkItem(name, target) => e := SymlinkEvent(name, target);
    case StartItem(name) => e := StartDirectory(name);
    case EndItem => e := EndDirectory;
    case FileItem(_, _, _, _) => e, failed, holds := TakeFile(parser, item, patient, polls, before);
  }

  /** One poll, and the consumer of what comes out. */
  method TakeNext(parser: NarParser, patient: bool, polls: nat)
      returns (r: Poll<Option<NarEvent>>, failed: bool, holds: bool)
    requires parser.Valid() && !parser.reader.IsOut()
    modifies parser.Repr()
    ensures fresh(parser.Repr() - old(parser.Repr())) || failed
    ensures Spent(old(parser.source.waits), parser.source.waits, r.Pending?)
    ensures if failed then r.Ready? && (parser.plan.Bad? || parser.plan.Panic?) else parser.Valid()
    ensures r.Pending? ==> parser.plan == old(parser.plan) && !holds && !parser.reader.IsOut()
    ensures r == Ready(None) ==> parser.plan == old(parser.plan) && !holds
    ensures r == Ready(None) && !failed ==>
      parser.source.Valid() && parser.plan == Done(parser.source.Rest())
    ensures r.Ready? && r.value.Some? ==>
      && old(parser.plan).More? && parser.plan == old(parser.plan).next
      && Abridges(r.value.value, old(parser.plan).event)
      && (patient && !holds ==> r.value.value == old(parser.plan).event || parser.plan.Bad?)
      && (!failed && holds ==> polls <= old(parser.source.waits) + |parser.source.data|)
      && (!failed && !holds ==> !parser.reader.IsOut())
  {
    hide Describes, Abridges, NarParser.Expects, SubReader.Valid, Loan.Valid, BufReadCompat.Valid, Inner.Valid;
    ghost var before := parser.plan;
    failed, holds := false, false;
    var p, panics := parser.PollNext();
    if p.Pending? {
      return Pending, false, false;
    }
    if p.value.None? {
      return Ready(None), false, false;
    }
    if p.value.value.Err? {
      return Ready(None), true, false;
    }
    var e;
    e, failed, holds := Take(parser, p.value.value.value, patient, polls, before);
    r := Ready(Some(e));
  }

  /** The parser is polled up to `polls` times. What it reports is what was to come, in order,
      each file with the part of its contents that the consumer took. With more polls than there
      are waits, events and bytes, the run comes to its end. */
  method Run(parser: NarParser, patient: bool, polls: nat)
      returns (out: seq<NarEvent>, ended: bool, failed: bool, ghost log: seq<NarEvent>)
    requires parser.Valid() && !parser.reader.IsOut()
    modifies parser.Repr()
    ensures Then(log, parser.plan) == old(parser.plan)
    ensures |out| == |log| && forall i | 0 <= i < |out| :: Abridges(out[i], log[i])
    ensures patient && ended ==> out == log
    ensures ended ==> parser.source.Valid() && parser.plan == Done(parser.source.Rest())
    ensures failed ==> parser.plan.Bad? || parser.plan.Panic?
    ensures polls > old(parser.source.waits + Len(parser.plan)) + |parser.source.data| ==> ended || failed
  {
    hide Abridges, NarParser.Valid, NarParser.Repr, Lending.IsOut;
    out, log, ended, failed := [], [], false, false;
    var n := polls;
    while n > 0
      invariant parser.Valid() && fresh(parser.Repr() - old(parser.Repr()))
      invariant Then(log, parser.plan) == old(parser.plan)
      invariant |out| == |log| && forall i | 0 <= i < |out| :: Abridges(out[i], log[i])
      invariant patient ==> out == log || parser.plan.Bad?
      invariant !parser.reader.IsOut()
      invariant polls - n + parser.source.waits + Len(parser.plan) <= old(parser.source.waits + Len(parser.plan))
    {
      n := n - 1;
      ghost var before := parser.plan;
      label Polled:
      var r, bad, holds := TakeNext(parser, patient, n);
      assert bad || fresh@Polled(parser.Repr() - old@Polled(parser.Repr()));
      assert bad || forall o | o in parser.Repr() :: o in old@Polled(parser.Repr()) || fresh@Polled(o);
      if r == Ready(None) {
        return out, !bad, bad, log;
      }
      if r.Ready? {
        ThenAppend(log, [before.event], parser.plan);
        out, log := out + [r.value.value], log + [before.event];
        if bad || holds {
          return out, false, bad, log;
        }
      }
    }
  }

  /** Parsing the encoding of a tree, whatever follows it in the stream: the events come out in
      order, and when the parser is done they are all out and the rest is unread. */
  method ReadTree(data: bytes, waits: nat, t: Node<bytes>, rest: bytes, patient: bool, polls: nat)
      returns (out: seq<NarEvent>, ended: bool, failed: bool, left: bytes)
    requires Encodable(t) && data == Encode(t) + rest
    ensures !failed
    ensures |out| <= |Events([], t)| && forall i | 0 <= i < |out| :: Abridges(out[i], Events([], t)[i])
    ensures ended ==> |out| == |Events([], t)| && left == rest
    ensures ended && patient ==> out == Events([], t)
    ensures polls > waits + |Events([], t)| + |data| ==> ended
  {
    hide Encode, Encodable, Parse, Events, Abridges, Then, Drivable, NarParser.Valid, NarParser.Repr;
    var source := new Source(data, waits);
    var parser := new NarParser(source);
    ParseEncoded(t, rest);
    assert source.Rest() == data;
    LenThen(Events([], t), Done(rest));
    ghost var log;
    out, ended, failed, log := Run(parser, patient, polls);
    ThenPrefix(log, parser.plan, Events([], t), rest);
    left := if source.pos <= |source.data| then source.data[source.pos..] else [];
  }

  /** Writing the events of a tree: the sink gets the encoding, in order, and with enough polls all
      of it. The sink makes the writer wait up to `waits` times, each file up to `slack` times. */
  method WriteTree(t: Node<bytes>, cutoff: nat, waits: nat, slack: nat, polls: nat)
      returns (written: bytes, closed: bool)
    requires Encodable(t) && cutoff >= 7
    ensures written <= Encode(t)
    ensures closed ==> written == Encode(t) && |written| % 8 == 0
    ensures polls > waits + |Events([], t)| * (slack + 1) ==> closed
  {
    hide Encode, Events, EventLog.Log, EventLog.Bracketed, Writers.Owing;
    EventLog.LogIsEncode(t);
    EventLog.EncodeAligned(t);
    var sink := new Sink(waits);
    var w := new Writers.NarWriter(Channels.Plain(sink), cutoff);
    var failed;
    closed, failed := Writers.Send(w, Events([], t), slack, polls);
    written := sink.written;
    assert [] + Encode(t) == Encode(t);
  }

  /** The round trip: what `NarWriter` writes for a tree, `NarParser` reads back as the same
      events, whatever the schedules of the two sides are, and with enough polls all of them. */
  method WriteThenRead(t: Node<bytes>, cutoff: nat, waits: nat, slack: nat, polls: nat, patient: bool)
      returns (out: seq<NarEvent>, ended: bool, failed: bool)
    requires Encodable(t) && cutoff >= 7
    ensures !failed
    ensures |out| <= |Events([], t)| && forall i | 0 <= i < |out| :: Abridges(out[i], Events([], t)[i])
    ensures ended ==> |out| == |Events([], t)|
    ensures ended && patient ==> out == Events([], t)
    ensures polls > waits + |Events([], t)| * (slack + 1) + |Encode(t)| ==> ended
  {
    hide Encode, Events, Abridges;
    AtLeastOnce(|Events([], t)|, slack);
    var data, closed := WriteTree(t, cutoff, waits, slack, polls);
    if !closed {
      return [], false, false;
    }
    assert data == data + [];
    var left;
    out, ended, failed, left := ReadTree(data, waits, t, [], patient, polls);
  }

  lemma AtLeastOnce(n: nat, slack: nat)
    ensures n * (slack + 1) >= n
  {}
}
