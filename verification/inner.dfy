/** `Inner::drive` as it runs: a loop over a buffer that picks tokens with the radix trees and
    keeps only a state and a level between calls. */
module NarMachine {
  import opened Wire
  import opened Grammar
  import opened Choice
  import M = Machine
  import opened RadixTree
  import opened Streams

  type Concrete = M.InnerState<RLookup>

  /** Inserting `token` after the tokens `m` does not panic, given room in the arrays. */
  ghost predicate Insertable<V>(m: map<bytes, V>, token: bytes) {
    token != [] && (forall t | t in m :: !(t <= token) && !(token <= t)) && !Crowded(m, token)
  }

  lemma DifferAt<V>(m: map<bytes, V>, token: bytes)
    requires token != [] && forall t | t in m :: exists i :: 0 <= i < |t| && i < |token| && t[i] != token[i]
    requires forall i, t, u :: !Crowd(m, token, i, t, u)
    ensures Insertable(m, token)
  {
    forall t | t in m
      ensures !(t <= token) && !(token <= t)
    {
      var i :| 0 <= i < |t| && i < |token| && t[i] != token[i];
    }
  }

  /** Where the four node tokens part ways. */
  predicate Forks(d: bytes, s: bytes, f: bytes, e: bytes) {
    && |d| > 0 && |s| > 16 && |f| > 16 && |e| > 16
    && d[0] != s[0] && s[0] == f[0] && s[8] != f[8] && f[..16] == e[..16] && f[16] != e[16]
  }

  lemma InsertSecond<V>(m: map<bytes, V>, d: bytes, s: bytes)
    requires m.Keys == {d} && |d| > 0 && |s| > 0 && d[0] != s[0]
    ensures Insertable(m, s) && forall t | t in m :: !(s[..1] <= t)
  {
    DifferAt(m, s);
  }

  lemma AgreeAt(t: bytes, u: bytes, i: nat, k: nat)
    requires k < i <= |t| && i <= |u| && t[..i] == u[..i]
    ensures t[k] == u[k]
  {
    assert t[..i][k] == u[..i][k];
  }

  lemma InsertFile<V>(m: map<bytes, V>, d: bytes, s: bytes, f: bytes, e: bytes)
    requires m.Keys == {d, s} && Forks(d, s, f, e)
    ensures Insertable(m, f)
  {
    assert s in m && f[..1] == s[..1];
    forall i: nat, t, u
      ensures !Crowd(m, f, i, t, u)
    {
      if Crowd(m, f, i, t, u) && i > 0 { AgreeAt(t, u, i, 0); }
    }
    DifferAt(m, f);
  }

  lemma InsertFileE<V>(m: map<bytes, V>, d: bytes, s: bytes, f: bytes, e: bytes)
    requires m.Keys == {d, s, f} && Forks(d, s, f, e)
    ensures Insertable(m, e)
  {
    assert e[0] == f[..16][0] && e[8] == f[..16][8];
    assert f in m;
    forall k | 0 <= k <= 16
      ensures e[..k] <= f
    {
      assert e[..k] == e[..16][..k] == f[..k];
    }
    forall i: nat, t, u
      ensures !Crowd(m, e, i, t, u)
    {
      if Crowd(m, e, i, t, u) && i > 0 { AgreeAt(t, u, i, 0); }
      if Crowd(m, e, i, t, u) && i > 8 { AgreeAt(t, u, i, 8); }
    }
    DifferAt(m, e);
  }

  method BuildNodeSelect<V>(d: bytes, s: bytes, f: bytes, e: bytes, x: V, y: V, z: V, w: V) returns (tree: RTree<V>)
    requires Forks(d, s, f, e)
    ensures fresh(tree) && tree.Valid() && tree.nodesLen > 0 && tree.tokens == map[d := x, s := y, f := z, e := w]
  {
    tree := new RTree<V>(7, 6, 2);
    DifferAt(tree.tokens, d);
    hide Arena.Inv, Crowded;
    var ok := tree.Insert(d, x);
    InsertSecond(tree.tokens, d, s);
    ok := tree.Insert(s, y);
    InsertFile(tree.tokens, d, s, f, e);
    ok := tree.Insert(f, z);
    InsertFileE(tree.tokens, d, s, f, e);
    ok := tree.Insert(e, w);
  }

  method BuildEntrySelect<V>(d: bytes, s: bytes, x: V, y: V) returns (tree: RTree<V>)
    requires |d| > 0 && |s| > 0 && d[0] != s[0]
    ensures fresh(tree) && tree.Valid() && tree.nodesLen > 0 && tree.tokens == map[d := x, s := y]
  {
    tree := new RTree<V>(3, 2, 2);
    DifferAt(tree.tokens, d);
    hide Arena.Inv, Crowded;
    var ok := tree.Insert(d, x);
    InsertSecond(tree.tokens, d, s);
    ok := tree.Insert(s, y);
  }

  lemma TokensFork()
    ensures Forks(TokDir(), TokSym(), TokFile(), TokFileE())
  {
    TokenLengths();
    TokenForks();
    StrShape("regular");
    hide Str;
    assert TokFile()[..16] == Str("regular") == TokFileE()[..16];
  }

  /** `NODE_SELECT` is built without a panic, in arrays of seven nodes and six edges. */
  method NodeSelect() returns (tree: RTree<Concrete>)
    ensures fresh(tree) && tree.Valid() && tree.nodesLen > 0 && tree.tokens == M.Alternatives<RLookup>(M.NodeKinds)
  {
    TokensFork();
    tree := BuildNodeSelect(TokDir(), TokSym(), TokFile(), TokFileE(),
                            M.ReadDir, M.Length(M.Contents(M.Link), []),
                            M.Length(M.Contents(M.File), []), M.Length(M.Contents(M.ExecutableFile), []));
    hide TokDir, TokSym, TokFile, TokFileE;
  }

  /** `ENTRY_SELECT` likewise, in arrays of three nodes and two edges. */
  method EntrySelect() returns (tree: RTree<Concrete>)
    ensures fresh(tree) && tree.Valid() && tree.nodesLen > 0 && tree.tokens == M.Alternatives<RLookup>(M.DirEntries)
  {
    TokenLengths();
    TokenForks();
    tree := BuildEntrySelect(TokEntry(), TokPar(), M.Length(M.EntryName, []), M.FinishReadEntry);
    hide TokEntry, TokPar;
  }

  // ---------- the machine ----------

  /** A tree in order that holds the alternatives of choice `o`. */
  ghost predicate Table(a: Arena<Concrete>, o: M.Options) {
    a.Inv() && a.tokens == M.Alternatives<RLookup>(o)
  }

  /** A stored state: positions inside a choice are neither leaves nor finished edges. */
  ghost predicate StateOk(n: Arena<Concrete>, e: Arena<Concrete>, st: Concrete) {
    match st
    case Select(o, at) => (if o.NodeKinds? then n else e).Stored(at)
    case _ => true
  }

  /** A position in the tree stands for the bytes that lead to it. */
  ghost function Abs(n: Arena<Concrete>, e: Arena<Concrete>, st: Concrete): M.State
    requires n.Inv() && e.Inv() && StateOk(n, e, st)
  {
    if st.Select? then M.Select(st.options, (if st.options.NodeKinds? then n else e).Spelled(st.at))
    else Direct(st)
  }

  /** A state that is not inside a choice. */
  function Direct(st: Concrete): M.State
    requires !st.Select?
  {
    match st
    case Expect(t, read) => M.Expect(t, read)
    case Length(w, got) => M.Length(w, got)
    case Data(w, size, rem) => M.Data(w, size, rem)
    case ReadDir => M.ReadDir
    case FinishReadEntry => M.FinishReadEntry
    case Eof => M.Eof
  }

  lemma SameAlternatives(o: M.Options)
    ensures M.Alternatives<RLookup>(o).Keys == M.Alternatives<bytes>(o).Keys
    ensures forall t | t in M.Alternatives<bytes>(o) ::
      var s := M.Alternatives<RLookup>(o)[t]; !s.Select? && Direct(s) == M.Alternatives<bytes>(o)[t]
  {
    hide TokDir, TokSym, TokFile, TokFileE, TokEntry, TokPar;
  }

  datatype Iteration =
    | Fail
    | Break(state: Concrete, level: nat, used: nat)
    | Continue(state: Concrete, level: nat, used: nat)

  /** The concrete iteration is the specified one. */
  ghost predicate Agrees(n: Arena<Concrete>, e: Arena<Concrete>, it: Iteration, spec: M.Iteration)
    requires n.Inv() && e.Inv()
  {
    match it
    case Fail => spec.Fail?
    case Break(s, l, u) => StateOk(n, e, s) && spec == M.Break(Abs(n, e, s), l, u)
    case Continue(s, l, u) => StateOk(n, e, s) && spec == M.Continue(Abs(n, e, s), l, u)
  }

  lemma RootPosition(a: Arena<Concrete>)
    requires a.Inv()
    ensures a.Stored(Node(0)) && a.Spelled(Node(0)) == []
  {}

  /** `read_token!`: compare as much of the token as there is input. */
  method IterateToken(t: M.Token, read: nat, level: nat, buf: bytes, root: RLookup) returns (it: Iteration)
    requires read < |M.Word(t)|
    ensures var spec := M.Iter(true, M.Expect(t, read), level, buf);
      match it
      case Fail => spec.Fail?
      case Break(s, l, u) => s == M.Expect(t, read + u) && spec == M.Break(M.Expect(t, read + u), l, u)
      case Continue(s, l, u) => s == M.After(t, level, root) && spec == M.Continue(M.After(t, level, []), l, u)
  {
    hide M.Word, M.Alternatives, Look, FromLE64, CalcAligned;
    var rem := M.Word(t)[read..];
    var cmp := Min(|rem|, |buf|);
    assert rem[..cmp] == buf[..cmp] <==> rem <= buf || buf <= rem;
    if rem[..cmp] != buf[..cmp] {
      it := Fail;
    } else if cmp < |rem| {
      it := Break(M.Expect(t, read + cmp), level, cmp);
    } else {
      it := Continue(M.After(t, level, root), level, cmp);
    }
  }

  /** The map `m` of the specification has the tokens of the tree, with corresponding values. */
  ghost predicate Corresponds(a: Arena<Concrete>, m: map<bytes, M.State>) {
    && a.Inv() && m.Keys == a.tokens.Keys && PrefixFree(m)
    && forall t | t in m :: !a.tokens[t].Select? && Direct(a.tokens[t]) == m[t]
  }

  lemma TableCorresponds(a: Arena<Concrete>, o: M.Options)
    requires Table(a, o)
    ensures Corresponds(a, M.Alternatives<bytes>(o))
  {
    hide Arena.Inv, M.Alternatives;
    SameAlternatives(o);
    M.AlternativesArePrefixFree<bytes>(o);
  }

  /** What a lookup answers is what the specification says about the choice. */
  lemma AnswerIsChoice(a: Arena<Concrete>, o: M.Options, m: map<bytes, M.State>, at: RLookup, level: nat, buf: bytes,
                       to: RLookup, r: RMatch)
    requires Corresponds(a, m) && a.Stored(at) && a.Answers(at, buf, to, r)
    ensures Open(m, a.Spelled(at))
    ensures var spec := M.Choose(o, m, a.Spelled(at), level, buf);
      match r
      case Match(n) => a.Spelled(to) in m && spec == M.Continue(m[a.Spelled(to)], level, n)
      case More => spec == M.Break(M.Select(o, a.Spelled(to)), level, |buf|)
      case Differ(_) => spec.Fail?
  {
    hide Arena.Inv, Arena.Spelled, Arena.Answers, Look;
    var z := a.Spelled(at) + buf;
    a.StoredIsOpen(at);
    LookSame(a.tokens, m, z);
    a.AnswerIsVerdict(at, buf, z, to, r);
    if r.More? { a.FullLength(at, buf, to); }
  }

  /** A choice: resume the lookup where it stopped. */
  method IterateSelect(tree: RTree<Concrete>, o: M.Options, ghost m: map<bytes, M.State>, at: RLookup, level: nat,
                       buf: bytes) returns (it: Iteration)
    requires tree.Valid() && tree.nodesLen > 0 && Corresponds(tree.View(), m) && tree.View().Stored(at)
    ensures var a := tree.View();
      && Open(m, a.Spelled(at))
      && var spec := M.Choose(o, m, a.Spelled(at), level, buf);
      match it
      case Fail => spec.Fail?
      case Break(s, l, u) =>
        s.Select? && s.options == o && a.Stored(s.at) && spec == M.Break(M.Select(o, a.Spelled(s.at)), l, u)
      case Continue(s, l, u) =>
        !s.Select? && spec == M.Continue(Direct(s), l, u)
  {
    hide Arena.Inv, Arena.Spelled, M.Choose;
    var to, r := tree.Lookup(at, buf);
    AnswerIsChoice(tree.View(), o, m, at, level, buf, to, r);
    match r
    case Match(n) =>
      var s := tree.GetValue(to);
      it := Continue(s, level, n);
    case More =>
      it := Break(M.Select(o, to), level, |buf|);
    case Differ(_) =>
      it := Fail;
  }

  class Inner {
    const p: bool
    const nodeSelect: RTree<Concrete>
    const entrySelect: RTree<Concrete>
    var state: Concrete
    var level: nat
    /** The state in terms of the specification. */
    ghost var spec: M.State

    function Tree(o: M.Options): RTree<Concrete> {
      if o.NodeKinds? then nodeSelect else entrySelect
    }

    ghost predicate TreeOk(o: M.Options)
      reads Tree(o)
    {
      Tree(o).Valid() && Tree(o).nodesLen > 0 && Table(Tree(o).View(), o)
    }

    ghost predicate Linked(s: M.State)
      reads this, nodeSelect, entrySelect
    {
      && M.Valid(s) && TreeOk(M.NodeKinds) && TreeOk(M.DirEntries)
      && StateOk(nodeSelect.View(), entrySelect.View(), state)
      && s == Abs(nodeSelect.View(), entrySelect.View(), state)
    }

    /** Each choice has its tree, and the state is what the specification says. (The second
        clause is a quantifier so that it is unfolded only where `Linked` is asked for.) */
    ghost predicate Valid()
      reads this, nodeSelect, entrySelect
    {
      (forall o: M.Options :: TreeOk(o)) && (forall s: M.State | s == spec :: Linked(s))
    }

    constructor (p: bool)
      ensures Valid() && spec == M.Start && level == 0 && this.p == p
      ensures fresh(nodeSelect) && fresh(entrySelect)
    {
      this.p := p;
      var n := NodeSelect();
      var e := EntrySelect();
      nodeSelect, entrySelect := n, e;
      state, level, spec := M.Expect(M.Root, 0), 0, M.Start;
      new;
      hide M.Word, M.Alternatives;
      assert TreeOk(M.NodeKinds) && TreeOk(M.DirEntries);
    }

    /** One iteration of the loop in `drive`. */
    method Iterate(st: Concrete, level: nat, buf: bytes) returns (it: Iteration)
      requires TreeOk(M.NodeKinds) && TreeOk(M.DirEntries) && StateOk(nodeSelect.View(), entrySelect.View(), st)
      requires M.Valid(Abs(nodeSelect.View(), entrySelect.View(), st))
      ensures var n, e := nodeSelect.View(), entrySelect.View();
        Agrees(n, e, it, M.Iter(p, Abs(n, e, st), level, buf))
    {
      hide M.Word, M.Alternatives, Look, FromLE64, CalcAligned, Arena.Inv, Arena.Spelled;
      match st
      case Expect(t, read) =>
        it := IterateToken(t, read, level, buf, Node(0));
        RootPosition(nodeSelect.View());
        RootPosition(entrySelect.View());
      case Select(o, at) =>
        TableCorresponds(Tree(o).View(), o);
        it := IterateSelect(Tree(o), o, M.Alternatives(o), at, level, buf);
      case Length(w, got) =>
        if |got| + |buf| < 8 {
          it := Break(M.Length(w, got + buf), level, |buf|);
        } else {
          var len := FromLE64((got + buf)[..8]);
          it := Continue(M.Data(w, len, CalcAligned(len)), level, 8 - |got|);
        }
      case Data(w, size, rem) =>
        if !p {
          it := Break(st, level, 0);
        } else if |buf| < rem {
          it := Break(M.Data(w, size, rem - |buf|), level, |buf|);
        } else {
          it := Continue(M.AfterData(w), level, rem);
        }
      case ReadDir =>
        RootPosition(entrySelect.View());
        it := if !p then Break(st, level + 1, 0) else Continue(M.Select(M.DirEntries, Node(0)), level + 1, 0);
      case FinishReadEntry =>
        var (s, l) := M.Close<RLookup>(level);
        it := if !p then Break(st, level, 0) else Continue(s, l, 0);
      case Eof =>
        it := Break(st, level, 0);
    }

    /** The loop of `drive`, from a state and a level to the next ones and the bytes used. */
    method Loop(from: Concrete, startLevel: nat, buf: bytes) returns (r: Result<(Concrete, nat, nat)>)
      requires TreeOk(M.NodeKinds) && TreeOk(M.DirEntries) && StateOk(nodeSelect.View(), entrySelect.View(), from)
      requires M.Valid(Abs(nodeSelect.View(), entrySelect.View(), from))
      ensures var n, e := nodeSelect.View(), entrySelect.View();
        match M.Drive(p, Abs(n, e, from), startLevel, buf)
        case Error => r == Err
        case Stop(s, l, k) =>
          r.Ok? && StateOk(n, e, r.value.0) && Abs(n, e, r.value.0) == s && r.value.1 == l && r.value.2 == k
    {
      hide M.Drive, M.Iter, M.Valid, Arena.Inv, Arena.Spelled, M.Alternatives;
      ghost var n, e := nodeSelect.View(), entrySelect.View();
      ghost var whole := M.Drive(p, Abs(n, e, from), startLevel, buf);
      var st, l, parsed := from, startLevel, 0;
      while true
        invariant parsed <= |buf| && StateOk(n, e, st) && M.Valid(Abs(n, e, st))
        invariant whole == M.Drive(p, Abs(n, e, st), l, buf[parsed..]).Shift(parsed)
        decreases |buf| - parsed, M.Rank(st)
      {
        var it := Iterate(st, l, buf[parsed..]);
        M.DriveStep(p, Abs(n, e, st), l, buf[parsed..]);
        M.IterValid(p, Abs(n, e, st), l, buf[parsed..]);
        match it
        case Fail =>
          return Err;
        case Break(s, l', u) =>
          return Ok((s, l', parsed + u));
        case Continue(s, l', u) =>
          assert buf[parsed..][u..] == buf[parsed + u..];
          st, l, parsed := s, l', parsed + u;
      }
    }

    /** `drive`. It returns how much of the buffer was used, or an error. */
    method Drive(buf: bytes) returns (r: Result<nat>)
      requires Valid()
      modifies this
      ensures Driven(p, old(spec), old(level), buf, r, spec, level)
      ensures r.Ok? ==> Valid() && r.value <= |buf| && (M.Stopped(p, state) || r.value == |buf|)
    {
      hide M.Drive, M.Iter, M.Valid, Arena.Inv, Arena.Spelled, M.Alternatives;
      assert TreeOk(M.NodeKinds) && TreeOk(M.DirEntries) && Linked(spec);
      var done := Loop(state, level, buf);
      if done.Err? {
        return Err;
      }
      state, level := done.value.0, done.value.1;
      spec := Abs(nodeSelect.View(), entrySelect.View(), state);
      assert Linked(spec);
      r := Ok(done.value.2);
    }

    /** `bump_next`: the caller has dealt with what the machine stopped for. */
    method BumpNext()
      requires Valid() && !p && (state.Data? || state.ReadDir? || state.FinishReadEntry?)
      modifies this
      ensures Valid()
      ensures match old(state)
        case Data(w, _, _) => spec == M.AfterData(w) && level == old(level)
        case ReadDir => spec == M.Select(M.DirEntries, []) && level == old(level)
        case _ => (spec, level) == M.Close<bytes>(old(level))
    {
      hide M.Word, M.Alternatives, Arena.Inv, Arena.Spelled;
      assert TreeOk(M.NodeKinds) && TreeOk(M.DirEntries);
      RootPosition(entrySelect.View());
      M.AlternativesArePrefixFree<bytes>(M.DirEntries);
      if state.Data? {
        state := M.AfterData(state.what);
      } else if state.ReadDir? {
        state := M.Select(M.DirEntries, Node(0));
      } else {
        var (s, l) := M.Close<RLookup>(level);
        state, level := s, l;
      }
      spec := Abs(nodeSelect.View(), entrySelect.View(), state);
      assert Linked(spec);
    }

    lemma Kind()
      requires Valid()
      ensures state.Select? == spec.Select? && (!state.Select? ==> Direct(state) == spec)
    {
      hide M.Valid, Arena.Inv, Arena.Spelled, M.Alternatives;
      assert Linked(spec);
    }
  }

  /** What a call of `drive` on `buf` makes of a state and a level. */
  ghost predicate Driven(p: bool, st: M.State, level: nat, buf: bytes, r: Result<nat>, st': M.State, level': nat) {
    M.Valid(st) &&
    match M.Drive(p, st, level, buf)
    case Error => r == Err
    case Stop(s, l, n) => r == Ok(n) && st' == s && level' == l
  }
}
