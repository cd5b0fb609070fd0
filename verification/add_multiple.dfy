/** `add_multiple_to_store`: a counted list of path infos, each followed by its NAR, written to
    and read from one stream. */
module AddMultiple {
  import opened Wire
  import opened Streams
  import opened Grammar
  import opened NarReaders
  import opened PaddedReaders
  import opened Lendings
  import opened Compat
  import M = Machine
  import Chunking
  import Recogniser
  import Limited
  import Sessions

  /** How a path info is written, and what is found at the start of a stream: a path info and
      the number of its bytes. */
  datatype Codec<!I> = Codec(encode: I -> bytes, decode: bytes -> Option<(I, nat)>)

  ghost predicate SelfDelimiting<I(!new)>(c: Codec<I>) {
    forall i: I, rest: bytes :: c.decode(c.encode(i) + rest) == Some((i, |c.encode(i)|))
  }

  /** A path info with the derivation of its NAR. */
  datatype Item<I> = Item(info: I, nar: Node<Blob>)

  ghost predicate NarsOk<I(!new)>(items: seq<Item<I>>) {
    forall i | 0 <= i < |items| :: WellFormed(items[i].nar, false)
  }

  function Flat<I>(c: Codec<I>, items: seq<Item<I>>): bytes {
    if items == [] then [] else c.encode(items[0].info) + (PrintRoot(items[0].nar) + Flat(c, items[1..]))
  }

  // ---------- what a stream comes to ----------

  /** What comes out of a stream: infos, each with the NAR behind it if there is one. It ends when
      all of them have come, or with an error. */
  datatype Listing<I> = Finished | Broken | Next(info: I, nar: Option<bytes>, more: Listing<I>)

  /** The NAR at the start of a stream. */
  ghost function NarAt(s: bytes): (r: Option<bytes>)
    ensures r.Some? ==> r.value <= s && Delimits(s, |r.value|)
    ensures r.None? ==> forall n: nat :: !Delimits(s, n)
  {
    hide Delimits;
    if n: nat :| Delimits(s, n) then DelimitsOnce(s, n, n); Some(s[..n]) else None
  }

  lemma NarIs(s: bytes, n: nat)
    requires Delimits(s, n)
    ensures n <= |s| && NarAt(s) == Some(s[..n])
  {
    hide Delimits;
    var nar := NarAt(s).value;
    DelimitsOnce(s, n, |nar|);
    assert nar == s[..|nar|];
  }

  ghost function Coming<I(!new)>(c: Codec<I>, k: nat, s: bytes): Listing<I>
    decreases k, 0
  {
    if k == 0 then Finished
    else
      var d := c.decode(s);
      if d.None? || d.value.1 > |s| then Broken
      else Next(d.value.0, NarAt(s[d.value.1..]), ComingBehind(c, k - 1, s[d.value.1..]))
  }

  /** What comes behind a NAR. Where there is none, it cannot be drained, so the next item is an
      error. */
  ghost function ComingBehind<I(!new)>(c: Codec<I>, k: nat, s: bytes): Listing<I>
    decreases k, 1
  {
    match NarAt(s)
    case Some(nar) => Coming(c, k, s[|nar|..])
    case None => if k == 0 then Finished else Broken
  }

  /** The listing of a list of items. */
  function Listed<I>(items: seq<Item<I>>): Listing<I> {
    if items == [] then Finished else Next(items[0].info, Some(PrintRoot(items[0].nar)), Listed(items[1..]))
  }

  /** A stream that holds a list of items comes to that list. */
  lemma {:induction false} ComingFlat<I(!new)>(c: Codec<I>, items: seq<Item<I>>, after: bytes)
    requires SelfDelimiting(c) && NarsOk(items)
    ensures Coming(c, |items|, Flat(c, items) + after) == Listed(items)
  {
    hide PrintRoot, WellFormed, Delimits, NarAt;
    if items != [] {
      var info, nar, k := c.encode(items[0].info), PrintRoot(items[0].nar), Flat(c, items[1..]) + after;
      var s := Flat(c, items) + after;
      Assoc(nar, Flat(c, items[1..]), after);
      Assoc(info, nar + Flat(c, items[1..]), after);
      assert s[|info|..] == nar + k && (nar + k)[..|nar|] == nar && (nar + k)[|nar|..] == k;
      NarDelimited(items[0].nar, k);
      NarIs(nar + k, |nar|);
      ComingFlat(c, items[1..], after);
    }
  }

  /** What is decoded is what was encoded. */
  ghost predicate Exact<I(!new)>(c: Codec<I>) {
    forall s: bytes | c.decode(s).Some? ::
      var (i, n) := c.decode(s).value;
      n <= |s| && s[..n] == c.encode(i)
  }

  /** What the machine delimits is a NAR. */
  lemma NarDerived(s: bytes, len: nat) returns (n: Node<Blob>)
    requires Delimits(s, len)
    ensures WellFormed(n, false) && len <= |s| && s[..len] == PrintRoot(n)
  {
    hide PrintRoot, WellFormed, M.Drive, M.Word;
    DelimitsOnce(s, len, len);
    assert EndsAfter(FromStart(s), len);
    Chunking.DriveUsed(true, M.Start, 0, s);
    Recogniser.RecogniserIsGrammar(s[..len]);
    n :| WellFormed(n, false) && PrintRoot(n) == s[..len];
  }

  lemma {:induction false} GoodIsFlat<I(!new)>(c: Codec<I>, k: nat, s: bytes)
      returns (items: seq<Item<I>>, after: bytes)
    requires Exact(c) && Good(Coming(c, k, s))
    ensures |items| == k && NarsOk(items) && s == Flat(c, items) + after
    decreases k
  {
    hide PrintRoot, WellFormed, Delimits;
    if k == 0 {
      items, after := [], s;
    } else {
      var (info, len) := c.decode(s).value;
      var t := s[len..];
      var nar := NarAt(t).value;
      var n := NarDerived(t, |nar|);
      var rest;
      rest, after := GoodIsFlat(c, k - 1, t[|nar|..]);
      items := [Item(info, n)] + rest;
      FlatItem(c, Item(info, n), rest, after, s, len, |nar|);
    }
  }

  lemma FlatItem<I>(c: Codec<I>, item: Item<I>, rest: seq<Item<I>>, after: bytes, s: bytes, a: nat, b: nat)
    requires a + b <= |s| && s[..a] == c.encode(item.info) && s[a..][..b] == PrintRoot(item.nar)
    requires s[a..][b..] == Flat(c, rest) + after
    ensures s == Flat(c, [item] + rest) + after
  {
    hide PrintRoot;
    assert ([item] + rest)[1..] == rest;
    assert s == s[..a] + (s[a..][..b] + s[a..][b..]);
  }

  /** Nothing is in the way of the last item exactly if the stream starts with a list of that many
      infos and NARs. */
  lemma GoodIff<I(!new)>(c: Codec<I>, k: nat, s: bytes)
    requires SelfDelimiting(c) && Exact(c)
    ensures Good(Coming(c, k, s)) <==>
            exists items: seq<Item<I>>, after: bytes :: |items| == k && NarsOk(items) && s == Flat(c, items) + after
  {
    hide SelfDelimiting, Exact, NarsOk, Flat, Good, Coming, Listed;
    if Good(Coming(c, k, s)) { var items, after := GoodIsFlat(c, k, s); }
    if items: seq<Item<I>>, after: bytes :| |items| == k && NarsOk(items) && s == Flat(c, items) + after {
      ComingFlat(c, items, after);
      ListedGood(items);
    }
  }

  lemma NarDelimited(n: Node<Blob>, k: bytes)
    requires WellFormed(n, false)
    ensures Delimits(PrintRoot(n) + k, |PrintRoot(n)|)
  {
    hide PrintRoot, WellFormed;
    Recogniser.ExactDelimiting(n, k);
  }

  /** Where the sub-stream of a NAR ends. */
  lemma WholeNar(n: NarReader, end: nat)
    ensures Nar(n).IsWhole(end) <==> NarAt(n.stream).Some? && end == n.start + |NarAt(n.stream).value|
    ensures Nar(n).IsWhole(end) <==> Nar(n).EndsAt(end)
  {
    hide Delimits, NarAt;
    if n.start <= end && Delimits(n.stream, end - n.start) { NarIs(n.stream, end - n.start); }
  }

  /** Nothing in the stream is in the way of the last item. */
  predicate Good<I>(t: Listing<I>) {
    match t
    case Finished => true
    case Broken => false
    case Next(_, nar, more) => nar.Some? && Good(more)
  }

  function Length<I>(t: Listing<I>): nat {
    if t.Next? then 1 + Length(t.more) else 0
  }

  // ---------- reading ----------

  class ItemStream<I(!new)> {
    const source: Source
    const reader: Lending
    const codec: Codec<I>
    const count: nat
    var idx: nat
    /** The items that are still to come. */
    ghost var plan: Listing<I>

    ghost function Repr(): set<object>
      reads this, reader
    {
      {this, source, reader} + reader.Repr()
    }

    ghost predicate Expects(t: Listing<I>)
      requires source.pos <= |source.data| && idx <= count
      reads this, reader, source
    {
      match reader.state
      case Available => t == Coming(codec, count - idx, source.data[source.pos..])
      case Lent(loan) => loan.sub.Nar? && t == ComingBehind(codec, count - idx, loan.sub.nar.stream)
      case Drain(sub) => sub.Nar? && t == ComingBehind(codec, count - idx, sub.nar.stream)
    }

    /** (The last clause is a quantifier so that it is unfolded only where `Expects` is asked for.) */
    ghost predicate Valid()
      reads this, Repr()
    {
      && source.Valid() && reader.Valid() && reader.source == source && idx <= count
      && forall t | t == plan :: Expects(t)
    }

    constructor (source: Source, codec: Codec<I>, count: nat)
      requires source.Valid()
      ensures Valid() && this.source == source && plan == Coming(codec, count, source.Rest())
      ensures fresh(Repr() - {source}) && reader.state.Available?
    {
      hide Coming, ComingBehind, SubReader.Valid, Loan.Valid;
      this.source, this.codec, this.count, idx := source, codec, count, 0;
      reader := new Lending(source);
      plan := Coming(codec, count, source.data[source.pos..]);
      new;
      assert Expects(plan);
    }

    /** The reader shows the NAR of the item, if there is one, and nothing was read of it yet. */
    ghost predicate Shows(before: Listing<I>, info: I, contents: BufReadCompat)
      reads this, Repr(), contents.Repr()
    {
      && before.Next? && info == before.info
      && contents.Valid() && contents.reader.inner.Some? && contents.seen == []
      && reader.state == Lent(contents.reader) && contents.reader.sub.Nar?
      && contents.first == contents.reader.sub.nar.start && contents.reader.sub.nar.source == source
      && before.nar == NarAt(contents.reader.sub.nar.stream)
    }

    /** The first of the items that were to come has come out, or there is none. */
    ghost predicate Gives(before: Listing<I>, r: Result<(I, BufReadCompat)>)
      reads this, Repr(), if r.Ok? then r.value.1.Repr() else {}
    {
      match r
      case Err => before.Broken?
      case Ok((info, contents)) => Shows(before, info, contents) && plan == before.more
    }

    /** What draining the last NAR has come to. */
    lemma Resume(n: NarReader, r: Poll<Result<()>>)
      requires n.source == source && n.start <= |source.data| && n.stream == source.data[n.start..] && idx < count
      requires Succeeds(r) ==> Nar(n).EndsAt(source.pos)
      requires forall pos: nat | Nar(n).IsWhole(pos) :: r != Ready(Err)
      ensures Succeeds(r) ==>
        && source.pos <= |source.data|
        && ComingBehind(codec, count - idx, n.stream) == Coming(codec, count - idx, source.data[source.pos..])
      ensures r == Ready(Err) ==> ComingBehind(codec, count - idx, n.stream) == Broken
    {
      hide Coming, NarAt, SubReader.IsWhole, SubReader.EndsAt;
      WholeNar(n, source.pos);
      if NarAt(n.stream).Some? {
        var len := |NarAt(n.stream).value|;
        WholeNar(n, n.start + len);
        assert n.stream[len..] == source.data[n.start + len..];
      }
    }

    /** `get_reader`: the stream, behind the NAR of the last item. Then the stream may make the
        decoder of the info wait. */
    method Await() returns (r: Poll<Result<()>>)
      requires Valid() && idx < count
      modifies Repr()
      ensures Repr() <= old(Repr()) && idx == old(idx) && plan == old(plan)
      ensures Spent(old(source.waits), source.waits, r.Pending? && !old(reader.IsOut()))
      ensures reader.IsOut() ==> old(reader.IsOut())
      ensures if r == Ready(Err) then Gives(plan, Err) else Valid()
      ensures Succeeds(r) ==> reader.state.Available?
    {
      hide Coming, ComingBehind, Delimits, SubReader.Valid, SubReader.EndsAt, SubReader.IsWhole;
      assert Expects(plan);
      ghost var st := reader.state;
      ghost var sub := if st.Lent? then Some(st.loan.sub) else if st.Drain? then Some(st.sub) else None;
      if sub.Some? { sub.value.Bounds(); }
      else { assert reader.WillResumeAt(source.pos); }
      r := reader.PollReady();
      ghost var pos := source.pos;
      var stalled := false;
      if Succeeds(r) { stalled := source.Stalls(); }
      assert Succeeds(r) ==> old(reader.ResumesAt(pos));
      assert forall end: nat | old(reader.WillResumeAt(end)) :: r != Ready(Err);
      if sub.Some? {
        forall end: nat | sub.value.IsWhole(end)
          ensures r != Ready(Err)
        {
          assert old(reader.WillResumeAt(end));
        }
        Resume(sub.value.nar, r);
      }
      assert r != Ready(Err) ==> Expects(plan);
      if stalled { r := Pending; }
    }

    /** Lend the stream for the NAR at its position, if there is one. */
    method LendNar() returns (contents: BufReadCompat)
      requires source.Valid() && reader.Valid() && reader.source == source && reader.state.Available?
      modifies reader
      ensures fresh(contents) && contents.Valid() && contents.reader.inner.Some? && contents.seen == []
      ensures reader.Valid() && reader.state == Lent(contents.reader)
      ensures contents.reader.sub.Nar? && contents.first == source.pos == contents.reader.sub.nar.start
      ensures contents.reader.sub.nar.source == source && contents.reader.sub.nar.stream == source.Rest()
      ensures fresh(reader.Repr() - {reader, source})
    {
      hide NarReader.Valid, PaddedReader.Valid, BufReadCompat.Valid, Delimits, SubReader.IsWhole, SubReader.EndsAt;
      var n := new NarReader(source);
      var loan := reader.Lend(Nar(n));
      contents := new BufReadCompat(loan);
    }

    /** `get_reader().read_value()`, then `lend`: the info from the stream, and a reader for the
        NAR behind it. */
    method TakeItem() returns (r: Result<(I, BufReadCompat)>)
      requires Valid() && reader.state.Available? && idx < count
      modifies this, source, reader
      ensures Gives(old(plan), r) && (r.Ok? ==> Valid() && fresh(Repr() - old(Repr())) && fresh(r.value.1))
      ensures source.waits == old(source.waits)
    {
      hide ComingBehind, NarAt, Delimits, SubReader.Valid, BufReadCompat.Valid;
      assert Expects(plan);
      ghost var rest := source.data[source.pos..];
      var d := codec.decode(source.data[source.pos..]);
      if d.None? || d.value.1 > |source.data| - source.pos {
        return Err;
      }
      var (info, n) := d.value;
      source.Take(n);
      assert source.data[source.pos..] == rest[n..];
      idx, plan := idx + 1, plan.more;
      var contents := LendNar();
      assert Expects(plan);
      r := Ok((info, contents));
    }

    lemma IsApart(contents: BufReadCompat)
      ensures this !in contents.Repr() && reader !in contents.Repr()
    {}

    /** What the consumer of a NAR does to its reader does not disturb the stream. */
    twostate lemma StillValid(loan: Loan)
      requires old(Valid()) && reader.state == Lent(loan) && loan.Valid() && unchanged(this, reader)
      ensures Valid() && Repr() == old(Repr())
    {
      hide Coming, ComingBehind, SubReader.Valid, SubReader.IsWhole, SubReader.EndsAt;
      assert old(Expects(plan));
      loan.sub.Bounds();
      assert Expects(plan);
    }

    /** `poll_next`: while the consumer holds the last NAR, nothing happens; then the next item
        comes out, unless the stream makes its reader wait. It fails exactly where the stream has
        no NAR behind the last item, or no info. */
    method PollNext() returns (r: Poll<Option<Result<(I, BufReadCompat)>>>)
      requires Valid()
      modifies Repr()
      ensures Spent(old(source.waits), source.waits, r.Pending? && !old(reader.IsOut()))
      ensures r != Ready(Some(Err)) ==> Valid() && fresh(Repr() - old(Repr()))
      ensures r.Pending? ==> plan == old(plan) && (reader.IsOut() ==> old(reader.IsOut()))
      ensures r.Ready? && r.value.None? ==> old(plan) == plan == Finished
      ensures r.Ready? && r.value.Some? ==> Gives(old(plan), r.value.value)
      ensures r.Ready? && r.value.Some? && r.value.value.Ok? ==> fresh(r.value.value.value.1)
    {
      hide Coming, ComingBehind, NarAt, Lending.Valid, Lending.WillResumeAt, SubReader.Valid, Loan.Valid,
        Lending.IsOut, Lending.Repr, BufReadCompat.Valid, ItemStream.Gives, ItemStream.Expects;
      if idx == count {
        AllHaveCome();
        return Ready(None);
      }
      var c := Await();
      if c.Pending? {
        return Pending;
      }
      if c.value.Err? {
        return Ready(Some(Err));
      }
      ghost var was := old(Repr());
      assert Repr() <= was;
      label L:
      var item := TakeItem();
      assert item.Ok? ==> fresh@L(Repr() - old@L(Repr()));
      assert item.Ok? ==> forall o | o in Repr() :: o in was || fresh@L(o);
      return Ready(Some(item));
    }

    lemma AllHaveCome()
      requires Valid() && idx == count
      ensures plan == Finished
    {
      hide NarAt;
      assert Expects(plan);
    }
  }
  /** What was received of an item: its info, and a part of its NAR or all of it. */
  ghost predicate Received<I>(got: (I, bytes), t: Listing<I>, all: bool) {
    && t.Next? && got.0 == t.info
    && IsPart(got.1, t.nar, all)
  }

  /** A part of a NAR that is there, or all of it. */
  ghost predicate IsPart(got: bytes, nar: Option<bytes>, all: bool) {
    nar.Some? ==> got <= nar.value && (all ==> got == nar.value)
  }

  /** The items that were received are the first of the listing. */
  ghost predicate Follows<I>(got: seq<(I, bytes)>, t: Listing<I>, all: bool) {
    got != [] ==> Received(got[0], t, all) && Follows(got[1..], t.more, all)
  }

  /** Where a NAR ends. */
  lemma EndsOfNar(n: NarReader)
    ensures forall end: nat | Nar(n).IsWhole(end) :: Nar(n).Last(end) >= n.start
  {
    hide NarAt, SubReader.IsWhole, SubReader.EndsAt;
    forall end: nat | Nar(n).IsWhole(end)
      ensures end >= n.start
    {
      WholeNar(n, end);
    }
  }

  /** What was taken of a NAR. */
  lemma TookOfNar(c: BufReadCompat, n: NarReader, got: bytes, failed: bool, done: bool)
    requires c.reader.sub == Nar(n) && c.first == n.start <= |n.source.data| && n.stream == n.source.data[n.start..]
    requires c.Took(got) && (done ==> c.reader.sub.AtEnd())
    requires forall end: nat | Nar(n).IsWhole(end) ::
      !failed && c.first + |got| <= Nar(n).Last(end) && (done ==> c.first + |got| == Nar(n).Last(end))
    ensures |got| <= |n.source.data| && (failed ==> NarAt(n.stream).None?)
    ensures done ==> NarAt(n.stream).Some?
    ensures NarAt(n.stream).Some? ==> got <= NarAt(n.stream).value && (done ==> got == NarAt(n.stream).value)
  {
    hide NarAt, SubReader.IsWhole, SubReader.EndsAt;
    WholeNar(n, n.source.pos);
    if NarAt(n.stream).Some? {
      WholeNar(n, n.start + |NarAt(n.stream).value|);
      assert got == n.stream[..|got|];
    }
  }

  /** The consumer of one NAR. It fails only where there is none, and there a patient one does. */
  method UseNar(c: BufReadCompat, ghost n: NarReader, patient: bool, polls: nat)
      returns (got: bytes, failed: bool, holds: bool)
    requires c.Valid() && c.reader.inner.Some? && c.seen == [] && c.reader.sub == Nar(n) && c.first == n.start
    modifies c.Repr()
    ensures n.source.waits <= old(n.source.waits) && (!failed ==> c.reader.Valid() && holds == c.reader.inner.Some?)
    ensures failed ==> NarAt(n.stream).None?
    ensures patient && !failed && !holds ==> NarAt(n.stream).Some?
    ensures IsPart(got, NarAt(n.stream), patient && !failed && !holds)
    ensures !failed && holds ==> polls <= old(n.source.waits) + |n.source.data|
  {
    hide NarAt, BufReadCompat.Valid, BufReadCompat.Took, SubReader.Valid, SubReader.IsWhole, SubReader.EndsAt,
      SubReader.AtEnd, Loan.Valid;
    c.Taken();
    c.reader.Bounds();
    EndsOfNar(n);
    got, failed := Sessions.Use(c, patient, polls);
    holds := c.reader.inner.Some?;
    TookOfNar(c, n, got, failed, patient && !failed && !holds);
  }

  method Use<I(!new)>(s: ItemStream<I>, ghost before: Listing<I>, info: I, contents: BufReadCompat, patient: bool,
                      polls: nat)
      returns (got: (I, bytes), failed: bool, holds: bool)
    requires s.Valid() && s.Shows(before, info, contents)
    modifies contents.Repr()
    ensures s.plan == old(s.plan) && (!failed ==> s.Valid() && s.Repr() == old(s.Repr()))
    ensures Received(got, before, patient && !failed && !holds) && s.source.waits <= old(s.source.waits)
    ensures failed ==> before.nar.None?
    ensures patient && !failed && !holds ==> before.nar.Some?
    ensures !failed ==> if holds then polls <= old(s.source.waits) + |s.source.data| else !s.reader.IsOut()
  {
    hide NarAt, IsPart, ItemStream.Valid, ItemStream.Repr, Lending.Repr, BufReadCompat.Valid, BufReadCompat.Repr,
      SubReader.Valid, Loan.Valid;
    ghost var n := contents.reader.sub.nar;
    s.IsApart(contents);
    var nar;
    nar, failed, holds := UseNar(contents, n, patient, polls);
    got := (info, nar);
    if !failed { s.StillValid(contents.reader); }
  }

  /** One poll, and the consumer of what comes out. */
  method TakeNext<I(!new)>(s: ItemStream<I>, patient: bool, polls: nat)
      returns (r: Poll<Option<(I, bytes)>>, failed: bool, holds: bool)
    requires s.Valid() && !s.reader.IsOut()
    modifies s.Repr()
    ensures !failed ==> s.Valid() && fresh(s.Repr() - old(s.Repr()))
    ensures Spent(old(s.source.waits), s.source.waits, r.Pending?)
    ensures failed ==> r.Ready? && !Good(old(s.plan))
    ensures !failed && holds ==> r.Ready? && polls <= old(s.source.waits) + |s.source.data|
    ensures !failed && !holds ==> r == Ready(None) || !s.reader.IsOut()
    ensures r.Pending? ==> s.plan == old(s.plan)
    ensures r == Ready(None) && !failed ==> old(s.plan).Finished?
    ensures r.Ready? && r.value.Some? ==>
      && Received(r.value.value, old(s.plan), patient && !failed && !holds)
      && s.plan == old(s.plan).more && (patient && !failed && !holds ==> old(s.plan).nar.Some?)
  {
    hide Received, NarAt, SubReader.Valid, SubReader.IsWhole, Loan.Valid, BufReadCompat.Valid, ItemStream.Valid;
    ghost var before := s.plan;
    failed, holds := false, false;
    var p := s.PollNext();
    if p.Pending? {
      return Pending, false, false;
    }
    if p.value.None? {
      return Ready(None), false, false;
    }
    if p.value.value.Err? {
      return Ready(None), true, false;
    }
    var (info, contents) := p.value.value.value;
    var g;
    g, failed, holds := Use(s, before, info, contents, patient, polls);
    r := Ready(Some(g));
  }

  /** The stream is polled up to `polls` times, and each NAR is read as far as its consumer likes.
      The items come out in order and none is lost. With more polls than there are waits, items and
      bytes there is an end or an error; and where every NAR is read to its end, it is an error
      exactly if something is wrong with the stream. */
  method Receive<I(!new)>(s: ItemStream<I>, patient: bool, polls: nat)
      returns (got: seq<(I, bytes)>, ended: bool, failed: bool)
    requires s.Valid() && !s.reader.IsOut()
    modifies s.Repr()
    ensures Follows(got, old(s.plan), patient && ended)
    ensures ended ==> |got| == Length(old(s.plan)) && (patient ==> Good(old(s.plan)))
    ensures failed ==> !ended && !Good(old(s.plan))
    ensures polls > old(s.source.waits) + Length(old(s.plan)) + |s.source.data| ==> ended || failed
  {
    hide Received, ItemStream.Valid;
    got, ended, failed := [], false, false;
    if polls == 0 {
      return;
    }
    ghost var before := s.plan;
    var r, holds;
    r, failed, holds := TakeNext(s, patient, polls - 1);
    if r.Pending? {
      got, ended, failed := Receive(s, patient, polls - 1);
    } else if r.value.None? {
      ended := !failed;
    } else {
      var first, all := r.value.value, patient && !failed && !holds;
      if !failed && !holds {
        got, ended, failed := Receive(s, patient, polls - 1);
      }
      Weaken(first, before, all, patient && ended);
      got := [first] + got;
    }
  }

  lemma Weaken<I>(got: (I, bytes), t: Listing<I>, last: bool, all: bool)
    requires Received(got, t, last) && (all ==> last)
    ensures Received(got, t, all)
  {}

  /** What was received of a list of items: each info, and a part of each NAR or all of it. */
  ghost predicate ReceivedAll<I>(got: seq<(I, bytes)>, items: seq<Item<I>>, all: bool) {
    && |got| <= |items|
    && forall i | 0 <= i < |got| ::
      && got[i].0 == items[i].info && got[i].1 <= PrintRoot(items[i].nar)
      && (all ==> got[i].1 == PrintRoot(items[i].nar))
  }

  lemma {:induction false} FollowsListed<I>(got: seq<(I, bytes)>, items: seq<Item<I>>, all: bool)
    requires Follows(got, Listed(items), all)
    ensures ReceivedAll(got, items, all)
  {
    hide PrintRoot;
    if got != [] {
      FollowsListed(got[1..], items[1..], all);
      assert forall i | 0 < i < |got| :: got[i] == got[1..][i - 1] && items[i] == items[1..][i - 1];
    }
  }

  lemma {:induction false} ListedGood<I>(items: seq<Item<I>>)
    ensures Good(Listed(items)) && Length(Listed(items)) == |items|
  {
    hide PrintRoot;
    if items != [] { ListedGood(items[1..]); }
  }

  // ---------- writing ----------

  datatype Sending<I> = Sending(info: I, nar: bytes)

  /** What the items come to on the wire, up to the first that is not there. */
  function Joined<I>(c: Codec<I>, stream: seq<Result<Sending<I>>>): bytes {
    if stream == [] || stream[0].Err? then []
    else c.encode(stream[0].value.info) + (stream[0].value.nar + Joined(c, stream[1..]))
  }

  lemma JoinedNothing<I>(c: Codec<I>)
    ensures Joined(c, []) == []
  {}

  lemma {:induction false} JoinedAppend<I>(c: Codec<I>, stream: seq<Result<Sending<I>>>, item: Sending<I>)
    requires forall i | 0 <= i < |stream| :: stream[i].Ok?
    ensures Joined(c, stream + [Ok(item)]) == Joined(c, stream) + c.encode(item.info) + item.nar
  {
    if stream != [] {
      JoinedAppend(c, stream[1..], item);
      assert (stream + [Ok(item)])[1..] == stream[1..] + [Ok(item)];
      var a, b, j := c.encode(stream[0].value.info), stream[0].value.nar, Joined(c, stream[1..]);
      assert a + (b + (j + c.encode(item.info) + item.nar)) == a + (b + j) + c.encode(item.info) + item.nar;
    }
  }

  lemma {:induction false} JoinedStops<I>(c: Codec<I>, stream: seq<Result<Sending<I>>>, k: nat)
    requires k < |stream| && stream[k].Err? && forall i | 0 <= i < k :: stream[i].Ok?
    ensures Joined(c, stream) == Joined(c, stream[..k])
  {
    if k > 0 {
      JoinedStops(c, stream[1..], k - 1);
      assert stream[..k][1..] == stream[1..][..k - 1];
    }
  }

  /** `write_add_multiple_to_store_stream`: it succeeds exactly if the stream has as many items
      as it says; and what is written is the count and the items, as far as they go. */
  method WriteStream<I>(c: Codec<I>, size: u64, stream: seq<Result<Sending<I>>>)
      returns (written: bytes, r: Result<nat>)
    ensures r.Ok? <==> |stream| == size && forall i | 0 <= i < |stream| :: stream[i].Ok?
    ensures r.Ok? ==> r.value == size
    ensures written == LE64(size) + Joined(c, stream[..Min(size, |stream|)])
  {
    hide LE64, Joined;
    JoinedNothing(c);
    written := LE64(size);
    var idx := 0;
    while idx < |stream|
      invariant idx <= |stream| && idx <= size && forall i | 0 <= i < idx :: stream[i].Ok?
      invariant written == LE64(size) + Joined(c, stream[..idx])
    {
      if idx >= size {
        return written, Err;
      }
      if stream[idx].Err? {
        ghost var s := stream[..Min(size, |stream|)];
        JoinedStops(c, s, idx);
        assert s[..idx] == stream[..idx];
        return written, Err;
      }
      var item := stream[idx].value;
      JoinedAppend(c, stream[..idx], item);
      assert stream[..idx + 1] == stream[..idx] + [Ok(item)];
      written := written + c.encode(item.info);
      written := written + item.nar;
      idx := idx + 1;
    }
    if idx != size {
      return written, Err;
    }
    return written, Ok(size);
  }

  // ---------- writing, then reading ----------

  function Outgoing<I>(items: seq<Item<I>>): seq<Result<Sending<I>>> {
    seq(|items|, i requires 0 <= i < |items| => Ok(Sending(items[i].info, PrintRoot(items[i].nar))))
  }

  lemma {:induction false} JoinedIsFlat<I>(c: Codec<I>, items: seq<Item<I>>)
    ensures Joined(c, Outgoing(items)) == Flat(c, items)
  {
    hide PrintRoot;
    if items != [] {
      JoinedIsFlat(c, items[1..]);
      assert Outgoing(items)[1..] == Outgoing(items[1..]);
    }
  }

  /** `read_number`, polled up to `polls` times. */
  method ReadCount(source: Source, polls: nat) returns (r: Option<u64>)
    requires source.Valid() && source.pos + 8 <= |source.data|
    modifies source
    ensures source.Valid() && source.waits <= old(source.waits)
    ensures polls > old(source.waits) ==> r.Some?
    ensures r.Some? ==>
      source.pos == old(source.pos) + 8 && r.value == FromLE64(source.data[old(source.pos)..old(source.pos) + 8])
  {
    hide FromLE64;
    var word := new Limited.TryReadU64(source.pos);
    var n := polls;
    while n > 0
      invariant fresh(word) && word.Valid(source) && word.first == old(source.pos)
      invariant polls - n + source.waits <= old(source.waits)
    {
      n := n - 1;
      var p := word.PollReader(source);
      if p.Ready? {
        return p.value.value;
      }
    }
    return None;
  }

  /** The hand-off across items: what is written for a list of items, and whatever follows it,
      is read back item by item, however much of each NAR its consumer reads, and with enough
      polls to the last. */
  method WriteThenReceive<I(!new)>(c: Codec<I>, items: seq<Item<I>>, after: bytes, waits: nat, patient: bool,
                                   polls: nat)
      returns (got: seq<(I, bytes)>, ended: bool)
    requires SelfDelimiting(c) && NarsOk(items) && |items| < U64
    ensures ReceivedAll(got, items, patient && ended)
    ensures ended ==> |got| == |items|
    ensures polls > waits + |items| + 8 + |Flat(c, items)| + |after| ==> ended
  {
    hide PrintRoot, Follows, SelfDelimiting, NarsOk, Coming, Listed, Flat, Joined, LE64, FromLE64,
      ItemStream.Valid;
    var stream := Outgoing(items);
    var written, r := WriteStream(c, |items|, stream);
    assert stream[..|items|] == stream;
    JoinedIsFlat(c, items);
    var source := new Source(written + after, waits);
    Assoc(LE64(|items|), Flat(c, items), after);
    Word64(|items|, LE64(|items|));
    assert source.data[..8] == LE64(|items|) && source.data[8..] == Flat(c, items) + after;
    ComingFlat(c, items, after);
    ListedGood(items);
    var count := ReadCount(source, polls);
    if count.None? {
      return [], false;
    }
    var s := new ItemStream(source, c, count.value);
    var failed;
    got, ended, failed := Receive(s, patient, polls);
    FollowsListed(got, items, patient && ended);
  }
}
