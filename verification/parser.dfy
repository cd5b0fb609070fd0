/** `NarParser`: the events of a NAR, with the contents of each file lent to the consumer. */
module Parsers {
  import opened Wire
  import opened Streams
  import opened Grammar
  import M = Machine
  import opened Parsing
  import opened NarMachine
  import opened PaddedReaders
  import opened NarReaders
  import opened Lendings
  import opened Compat

  datatype Item =
    | FileItem(name: bytes, executable: bool, size: u64, contents: BufReadCompat)
    | SymlinkItem(name: bytes, target: bytes)
    | StartItem(name: bytes)
    | EndItem

  /** What one round of the loop in `poll_next` comes to. */
  datatype Step = Wait | Broken | Crash | Again | Emit(item: Item) | Finish

  /** The item reports the event; the contents of a file are to be read from the stream. */
  ghost predicate Describes(item: Item, e: NarEvent) {
    match e
    case FileEvent(name, x, size, contents) =>
      && item.FileItem? && item.name == name && item.executable == x && item.size == size
      && var sub := item.contents.reader.sub;
      && sub.Padded? && sub.padded.len == size && sub.padded.start == item.contents.first
      && var data := sub.padded.source.data;
      && var first := item.contents.first;
      && first <= |data| && contents == data[first..][..Min(size, |data| - first)]
    case SymlinkEvent(name, target) => item == SymlinkItem(name, target)
    case StartDirectory(name) => item == StartItem(name)
    case EndDirectory => item == EndItem
  }

  /** And nothing of them was read yet. */
  ghost predicate Shows(item: Item, e: NarEvent)
    reads if item.FileItem? then {item.contents} else {}
  {
    Describes(item, e) && (item.FileItem? ==> item.contents.seen == [])
  }

  class NarParser {
    const source: Source
    const reader: Lending
    const state: Inner
    var name: Option<bytes>
    /** The events that are still to come. */
    ghost var plan: Trace

    ghost function Repr(): set<object>
      reads this, reader
    {
      {this, source, reader, state, state.nodeSelect, state.entrySelect} + reader.Repr()
    }

    ghost function Name(): bytes
      reads this
    {
      if name.Some? then name.value else []
    }

    /** What the parser will find in the stream when it has it again. */
    ghost function Ahead(): bytes
      requires source.pos <= |source.data|
      reads this, reader, source
    {
      match reader.state
      case Lent(loan) => if loan.sub.Padded? then source.data[Min(loan.sub.padded.end, |source.data|)..] else []
      case Drain(sub) => if sub.Padded? then source.data[Min(sub.padded.end, |source.data|)..] else []
      case Available => source.data[source.pos..]
    }

    ghost predicate Expects(t: Trace)
      requires source.pos <= |source.data|
      reads this, reader, source, state
    {
      t == Plan(state.spec, state.level, Name(), Ahead())
    }

    /** The stream is lent exactly while a file is out. (The last clause is a quantifier so that
        it is unfolded only where `Expects` is asked for.) */
    ghost predicate Valid()
      reads this, Repr()
    {
      && source.Valid() && reader.Valid() && reader.source == source && state.Valid() && !state.p
      && (IsFile(state.state) <==> !reader.state.Available?)
      && (reader.state.Lent? ==> reader.state.loan.sub.Padded?)
      && (reader.state.Drain? ==> reader.state.sub.Padded?)
      && (state.state.Data? && !IsFile(state.state) ==> 0 < state.state.rem && state.state.size <= state.state.rem)
      && forall t | t == plan :: Expects(t)
    }

    constructor (source: Source)
      requires source.Valid()
      ensures Valid() && this.source == source
      ensures fresh(Repr() - {source}) && reader.state.Available? && source.waits == old(source.waits)
      ensures Drivable(M.Start) && plan == Parse(M.Start, 0, [], source.Rest())
    {
      hide M.Word, M.Alternatives, Parse, Act, AfterDirectory;
      this.source, name := source, None;
      reader := new Lending(source);
      state := new Inner(false);
      new;
      DrivableStates();
      state.Kind();
      plan := Parse(M.Start, 0, [], source.Rest());
    }

    lemma NothingAhead()
      requires Valid() && IsFile(state.state) && Ahead() == []
      ensures plan.Bad?
    {
      hide M.Word, M.Alternatives, Parse, SubReader.Valid, Inner.Valid;
      assert Expects(plan);
      state.Kind();
      DrivableStates();
      ParseNothing(M.Expect(M.FinishNode, 0), state.level, Name());
    }

    /** If the stream ends inside a file, there is an error ahead. */
    lemma TooShort(loan: Loan)
      requires Valid() && reader.state == Lent(loan)
      ensures loan.sub.Padded? && loan.sub.Source() == source && (!loan.sub.padded.Whole() ==> plan.Bad?)
    {
      hide NarParser.Expects, SubReader.Valid, Inner.Valid;
      if !loan.sub.padded.Whole() { NothingAhead(); }
    }

    /** What the consumer of a file does to its reader does not disturb the parser. */
    twostate lemma StillValid(loan: Loan)
      requires old(Valid()) && reader.state == Lent(loan) && loan.Valid()
      requires unchanged(this, reader, state, state.nodeSelect, state.entrySelect)
      ensures Valid() && Repr() == old(Repr())
    {
      hide Plan, SubReader.Valid, Inner.Valid;
      loan.sub.Bounds();
      assert old(Expects(plan));
      assert Expects(plan);
    }

    /** Have the stream back: wait for the consumer of the last file, and skip what it left. */
    method Reclaim() returns (r: Poll<Result<()>>)
      requires Valid()
      modifies Repr()
      ensures r != Ready(Err) ==> Valid() && plan == old(plan)
      ensures r == Ready(Err) ==> plan == old(plan) && plan.Bad?
      ensures Repr() <= old(Repr())
      ensures Spent(old(source.waits), source.waits, r.Pending? && !old(reader.IsOut()))
      ensures !old(reader.IsOut()) ==> !reader.state.Lent?
      ensures r.Ready? && r.value.Ok? ==> reader.state.Available?
    {
      hide M.Word, M.Alternatives, Parse, Act, AfterDirectory, SubReader.Valid, Inner.Valid;
      assert Expects(plan);
      state.Kind();
      ghost var st, ahead := reader.state, Ahead();
      if !st.Available? {
        ghost var p := (if st.Lent? then st.loan.sub else st.sub).padded;
        ghost var end := Min(p.end, |source.data|);
        assert reader.ResumesAt(end) && (p.Whole() ==> reader.WillResumeAt(end));
        if !p.Whole() { NothingAhead(); }
      } else {
        assert reader.ResumesAt(source.pos) && reader.WillResumeAt(source.pos);
      }
      r := reader.PollReady();
      if r.Ready? && r.value.Err? {
        return;
      }
      assert Ahead() == ahead;
      assert Expects(plan);
      if r.Ready? && IsFile(state.state) {
        state.BumpNext();
        state.Kind();
        assert Expects(plan) by { DrivableStates(); }
      }
    }

    /** The start of `poll_next`: reclaim the stream, and leave the state that the last event
        was reported in. The answer is whether there is anything left to parse. */
    method Prepare() returns (r: Poll<Result<bool>>)
      requires Valid()
      modifies Repr()
      ensures r != Ready(Err) ==> Valid() && plan == old(plan)
      ensures r == Ready(Err) ==> plan == old(plan) && plan.Bad?
      ensures r == Ready(Ok(true)) ==> IsDriving() && source.Valid()
      ensures Repr() <= old(Repr())
      ensures Spent(old(source.waits), source.waits, r.Pending? && !old(reader.IsOut()))
      ensures !old(reader.IsOut()) ==> !reader.state.Lent?
      ensures r == Ready(Ok(false)) ==> Outcome(Finish, old(plan))
    {
      hide M.Word, M.Alternatives, Parse, Act, SubReader.Valid, Inner.Valid;
      var c := Reclaim();
      if c.Pending? {
        return Pending;
      }
      if c.value.Err? {
        return Ready(Err);
      }
      assert Expects(plan);
      state.Kind();
      if state.state.ReadDir? || state.state.FinishReadEntry? {
        state.BumpNext();
        state.Kind();
        DrivableStates();
        assert Expects(plan) by { ActEof(state.level, Name(), Ahead()); }
      }
      if state.state.Eof? {
        ActEof(state.level, Name(), Ahead());
        return Ready(Ok(false));
      }
      return Ready(Ok(true));
    }

    /** The stream is at hand, and the machine is in the middle of a token or at a string. */
    ghost predicate IsDriving()
      reads this, reader, state
    {
      reader.state.Available? && Parsing.IsDriving(state.state)
    }

    /** The parts are in order, and the stream is at hand. */
    ghost predicate AtHand()
      reads this, Repr()
    {
      && source.Valid() && reader.Valid() && reader.source == source && reader.state.Available?
      && state.Valid() && !state.p
    }

    ghost predicate Acts(t: Trace)
      requires source.pos <= |source.data|
      reads this, source, state
    {
      M.Stopped(false, state.spec) && t == Act(state.spec, state.level, Name(), source.data[source.pos..])
    }

    /** The machine has stopped, and its caller has to act. */
    ghost predicate AtStop()
      reads this, Repr()
    {
      AtHand() && M.Stopped(false, state.state) && forall t | t == plan :: Acts(t)
    }

    /** Drive over a buffer, and consume what was used. */
    method Feed(buf: bytes) returns (r: Result<()>)
      requires Valid() && IsDriving() && buf != [] && |buf| <= source.visible
      requires buf == source.data[source.pos..source.pos + |buf|]
      modifies state, source`pos, source`visible
      ensures source.pos >= old(source.pos) && source.Valid()
      ensures r.Err? ==> plan.Bad?
      ensures r.Ok? && source.pos == old(source.pos) ==>
        M.Stopped(false, state.state) && old(M.Stopped(false, state.state))
      ensures r.Ok? ==> if M.Stopped(false, state.state) then AtStop() else Valid() && IsDriving()
    {
      hide M.Word, M.Alternatives, M.Drive, M.Valid, Plan, Act, Parse, AfterDirectory, SubReader.Valid, Loan.Valid,
        Inner.Valid;
      assert Expects(plan);
      state.Kind();
      ghost var st, l, rest := state.spec, state.level, source.data[source.pos + |buf|..];
      assert buf + rest == source.data[source.pos..];
      var d := state.Drive(buf);
      PlanAdvance(st, l, Name(), buf, rest);
      if d.Err? {
        return Err;
      }
      source.Consume(d.value);
      assert buf[d.value..] + rest == source.data[source.pos..];
      state.Kind();
      if M.Stopped(false, state.state) {
        assert Acts(plan);
      } else {
        assert rest == source.data[source.pos..];
        assert Expects(plan);
      }
      return Ok(());
    }

    /** One round of fill, drive and consume. */
    method Advance() returns (r: Poll<Result<()>>)
      requires Valid() && IsDriving()
      modifies state, source
      ensures source.pos >= old(source.pos) && source.Valid()
      ensures Spent(old(source.waits), source.waits, r.Pending?)
      ensures r == Ready(Err) ==> plan.Bad?
      ensures r.Pending? ==> Valid() && IsDriving()
      ensures r.Ready? && r.value.Ok? && source.pos == old(source.pos) ==>
        M.Stopped(false, state.state) && old(M.Stopped(false, state.state))
      ensures r.Ready? && r.value.Ok? ==> if M.Stopped(false, state.state) then AtStop() else Valid() && IsDriving()
    {
      hide M.Word, M.Alternatives, M.Drive, M.Valid, Plan, Act, Parse, AfterDirectory, SubReader.Valid, Loan.Valid,
        Inner.Valid;
      assert Expects(plan);
      state.Kind();
      ghost var s := source.data[source.pos..];
      var f := source.PollFillBuf();
      assert Expects(plan);
      if f.Pending? {
        return Pending;
      }
      if f.value == [] {
        assert s == [];
        PlanNothing(state.spec, state.level, Name());
        return Ready(Err);
      }
      var d := Feed(f.value);
      return Ready(d);
    }

    /** Wait until the whole string and its padding are in the buffer, and take them out. */
    method ReadString(size: nat, aligned: nat) returns (r: Poll<Result<bytes>>)
      requires source.Valid() && size <= aligned
      modifies source
      ensures source.Valid() && Spent(old(source.waits), source.waits, r.Pending?)
      ensures r.Pending? ==> source.pos == old(source.pos) && 0 < aligned
      ensures r == Ready(Err) ==> source.pos == old(source.pos) && |source.data| < source.pos + aligned
      ensures r.Ready? && r.value.Ok? ==>
        && old(source.pos) + aligned == source.pos <= |source.data|
        && r.value.value == source.data[old(source.pos)..old(source.pos) + size]
    {
      while source.visible < aligned
        invariant source.Valid() && source.pos == old(source.pos) && source.waits <= old(source.waits)
        decreases aligned - source.visible
      {
        var g := source.PollForceFillBuf();
        if g.Pending? {
          return Pending;
        }
        if g.value.Err? {
          return Ready(Err);
        }
      }
      r := Ready(Ok(source.data[source.pos..source.pos + size]));
      source.Consume(aligned);
    }

    /** Lend the stream for a string of the given size. */
    method Open(size: u64) returns (contents: BufReadCompat)
      requires source.Valid() && reader.Valid() && reader.source == source && reader.state.Available?
      modifies reader
      ensures fresh(contents) && contents.Valid() && reader.Valid() && reader.state == Lent(contents.reader)
      ensures contents.reader.inner.Some?
      ensures fresh(reader.Repr() - {reader, source})
      ensures var sub := contents.reader.sub;
        && sub.Padded? && sub.padded.len == size && sub.padded.start == source.pos == contents.first
        && sub.padded.source == source && sub.padded.end == source.pos + Wire.Padded(size) && contents.seen == []
    {
      hide PaddedReader.Valid, NarReader.Valid, BufReadCompat.Valid, SubReader.IsWhole, SubReader.EndsAt, Wire.Padded;
      var p := new PaddedReader(source, size);
      var loan := reader.Lend(Padded(p));
      contents := new BufReadCompat(loan);
    }

    /** A file: lend the stream, positioned at its contents. */
    method LendFile() returns (item: Item)
      requires AtStop() && IsFile(state.state)
      modifies Repr()
      ensures Valid() && old(plan).More? && plan == old(plan).next
      ensures source.pos == old(source.pos) && source.waits == old(source.waits)
      ensures Shows(item, old(plan).event) && item.FileItem? && fresh(item.contents)
      ensures reader.state == Lent(item.contents.reader) && item.contents.Valid() && item.contents.reader.inner.Some?
      ensures fresh(Repr() - old(Repr()))
    {
      hide M.Word, M.Alternatives, Parse, Act, Skip, Wire.Padded, SubReader.Valid, Inner.Valid, BufReadCompat.Valid,
        Loan.Valid;
      assert Acts(plan);
      state.Kind();
      var size := state.state.size;
      ghost var s := source.data[source.pos..];
      ActFile(state.state.what.nodeType, size, state.state.rem, state.level, Name(), s);
      var called := if name.Some? then name.value else [];
      name, plan := None, plan.next;
      var contents := Open(size);
      SkipIs(size, source.pos, contents.reader.sub.padded.end);
      item := FileItem(called, state.state.what.nodeType == M.ExecutableFile, size, contents);
      assert Expects(plan);
    }

    /** Where the stream goes on behind a string that starts at `pos` and ends, padded, at `end`. */
    lemma SkipIs(size: u64, pos: nat, end: nat)
      requires pos <= |source.data| && end == pos + Wire.Padded(size)
      ensures Skip(size, source.data[pos..]) == source.data[Min(end, |source.data|)..]
    {}

    /** A name or a link target, which are read whole. */
    method TakeString() returns (step: Step)
      requires AtStop() && state.state.Data? && !IsFile(state.state)
      modifies Repr()
      ensures source.pos >= old(source.pos) && Outcome(step, old(plan))
      ensures Spent(old(source.waits), source.waits, step.Wait?)
      ensures Repr() == old(Repr()) && (step.Emit? ==> !step.item.FileItem?)
      ensures step.Again? ==> state.state.Expect? && source.Valid()
    {
      hide M.Word, M.Alternatives, Parse, Act, AfterDirectory, SubReader.Valid, Loan.Valid, BufReadCompat.Valid,
        Inner.Valid;
      assert Acts(plan);
      state.Kind();
      var what, size, aligned := state.state.what, state.state.size, state.state.rem;
      ghost var s := source.data[source.pos..];
      ActString(what, size, aligned, state.level, Name(), s);
      if size > aligned {
        return Crash;
      }
      var g := ReadString(size, aligned);
      if g.Pending? {
        assert source.data[source.pos..] == s;
        assert Expects(plan);
        return Wait;
      }
      if g.value.Err? {
        return Broken;
      }
      assert s[..size] == g.value.value && s[aligned..] == source.data[source.pos..];
      state.BumpNext();
      state.Kind();
      if what.EntryName? {
        name := Some(g.value.value);
        assert Expects(plan);
        return Again;
      }
      var item := SymlinkItem(if name.Some? then name.value else [], g.value.value);
      name := None;
      plan := plan.next;
      assert Expects(plan);
      return Emit(item);
    }

    /** What a step leaves behind, if `before` was to come. */
    ghost predicate Outcome(step: Step, before: Trace)
      reads this, Repr(), if step.Emit? && step.item.FileItem? then step.item.contents.Repr() else {}
    {
      match step
      case Broken => plan == before && before.Bad?
      case Crash => plan == before && before.Panic?
      case Emit(item) =>
        && Valid() && before.More? && plan == before.next && Shows(item, before.event)
        && (item.FileItem? ==>
              && item.contents.Valid() && item.contents.reader.inner.Some?
              && reader.state == Lent(item.contents.reader))
        && (!item.FileItem? ==> reader.state.Available?)
      case Finish => Valid() && plan == before == Done(source.Rest())
      case _ => Valid() && plan == before && IsDriving()
    }

    /** What `poll_next` does when the machine has stopped. */
    method Handle() returns (step: Step)
      requires AtStop()
      modifies Repr()
      ensures source.pos >= old(source.pos) && Outcome(step, old(plan))
      ensures Spent(old(source.waits), source.waits, step.Wait?)
      ensures if step.Emit? then fresh(Repr() - old(Repr())) else Repr() == old(Repr())
      ensures step.Emit? && step.item.FileItem? ==> fresh(step.item.contents)
      ensures step.Again? ==> state.state.Expect? && source.Valid()
    {
      hide M.Word, M.Alternatives, Parse, AfterDirectory, SubReader.Valid, Inner.Valid;
      assert Acts(plan);
      state.Kind();
      match state.state
      case Data(what, size, aligned) =>
        if !IsFile(state.state) {
          step := TakeString();
        } else {
          var item := LendFile();
          step := Emit(item);
        }
      case ReadDir =>
        var item := StartItem(if name.Some? then name.value else []);
        name := None;
        plan := plan.next;
        assert Expects(plan);
        return Emit(item);
      case FinishReadEntry =>
        plan := plan.next;
        assert Expects(plan);
        return Emit(EndItem);
      case Eof =>
        assert Expects(plan);
        return Finish;
    }

    /** One round of the loop in `poll_next`. */
    method Round() returns (step: Step)
      requires Valid() && IsDriving()
      modifies Repr()
      ensures Outcome(step, old(plan))
      ensures Spent(old(source.waits), source.waits, step.Wait?)
      ensures if step.Emit? then fresh(Repr() - old(Repr())) else Repr() == old(Repr())
      ensures step.Emit? && step.item.FileItem? ==> fresh(step.item.contents)
      ensures step.Again? || step.Wait? ==> Valid() && plan == old(plan) && IsDriving()
      ensures step.Broken? ==> plan == old(plan) && plan.Bad?
      ensures step.Crash? ==> plan == old(plan) && plan.Panic?
      ensures step.Again? ==> source.Valid()
      ensures step.Again? ==>
        || source.pos > old(source.pos)
        || (source.pos == old(source.pos) && old(IsAtString()) && !IsAtString())
    {
      hide Describes, NarParser.Expects, NarParser.Acts, SubReader.Valid, Inner.Valid, Loan.Valid;
      var a := Advance();
      if a.Pending? {
        return Wait;
      }
      if a.value.Err? {
        return Broken;
      }
      if !M.Stopped(false, state.state) {
        return Again;
      }
      step := Handle();
    }

    predicate IsAtString()
      reads this, state
    {
      M.Stopped(false, state.state)
    }

    /** The loop of `poll_next`. */
    method Work() returns (r: Poll<Option<Result<Item>>>, panics: bool)
      requires Valid() && IsDriving() && source.Valid()
      modifies Repr()
      ensures fresh(Repr() - old(Repr()))
      ensures Spent(old(source.waits), source.waits, r.Pending?)
      ensures r.Pending? ==> Valid() && plan == old(plan) && IsDriving()
      ensures r.Ready? && r.value.None? ==> Outcome(Finish, old(plan))
      ensures r == Ready(Some(Err)) ==> plan == old(plan) && if panics then plan.Panic? else plan.Bad?
      ensures panics ==> r == Ready(Some(Err))
      ensures r.Ready? && r.value.Some? && r.value.value.Ok? ==>
        var item := r.value.value.value;
        Outcome(Emit(item), old(plan)) && (item.FileItem? ==> fresh(item.contents))
    {
      hide NarParser.Outcome, NarParser.Expects, NarParser.Acts, Lending.Valid, BufReadCompat.Valid, SubReader.Valid,
        Inner.Valid, Loan.Valid;
      while true
        invariant Valid() && IsDriving() && source.Valid() && plan == old(plan)
        invariant Repr() <= old(Repr()) && source.waits <= old(source.waits)
        decreases |source.data| - source.pos, IsAtString()
      {
        var step := Round();
        match step
        case Wait => return Pending, false;
        case Broken => return Ready(Some(Err)), false;
        case Crash => return Ready(Some(Err)), true;
        case Again =>
        case Emit(item) => return Ready(Some(Ok(item))), false;
        case Finish => return Ready(None), false;
      }
    }

    /** `poll_next`. While the consumer holds the last file, nothing happens; otherwise the next
        event that is to come comes out, whole, and the rest is to come after it. It asks its
        caller to wait only if the consumer still has the last file, or the stream makes it wait.
        (Where the code panics, the result is an error and `panics` is set.) */
    method PollNext() returns (r: Poll<Option<Result<Item>>>, panics: bool)
      requires Valid()
      modifies Repr()
      ensures fresh(Repr() - old(Repr()))
      ensures Spent(old(source.waits), source.waits, r.Pending? && !old(reader.IsOut()))
      ensures r.Pending? ==> Valid() && plan == old(plan) && (reader.IsOut() ==> old(reader.IsOut()))
      ensures r.Ready? && r.value.None? ==> Outcome(Finish, old(plan))
      ensures r == Ready(Some(Err)) ==> plan == old(plan) && if panics then plan.Panic? else plan.Bad?
      ensures panics ==> r == Ready(Some(Err))
      ensures r.Ready? && r.value.Some? && r.value.value.Ok? ==>
        var item := r.value.value.value;
        Outcome(Emit(item), old(plan)) && (item.FileItem? ==> fresh(item.contents))
    {
      hide NarParser.Outcome, NarParser.Expects, NarParser.Acts, Lending.Valid, Lending.Repr, BufReadCompat.Valid,
        SubReader.Valid, Inner.Valid, Loan.Valid;
      var c := Prepare();
      if c.Pending? {
        return Pending, false;
      }
      if c.value.Err? {
        return Ready(Some(Err)), false;
      }
      if !c.value.value {
        return Ready(None), false;
      }
      ghost var was := old(Repr());
      assert Repr() <= was;
      label Worked:
      r, panics := Work();
      assert fresh@Worked(Repr() - old@Worked(Repr()));
      assert forall o | o in Repr() :: o in was || fresh@Worked(o);
    }
  }

  lemma ActEof(level: nat, name: bytes, s: bytes)
    ensures Act(M.Eof, level, name, s) == Done(s)
  {
    hide Parse;
  }
}
