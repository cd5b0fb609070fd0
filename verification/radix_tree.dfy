/** The array-backed radix tree of `archive/radix_tree.rs`: edge splitting on insertion and a
    lookup that can stop at any byte and be resumed. It refines a prefix-free map. */
module RadixTree {
  import opened Wire
  import opened Choice

  datatype RLookup = Node(node: nat) | Edge(edge: nat, read: nat)
  datatype RMatch = Match(n: nat) | More | Differ(n: nat)
  datatype REdge = REdge(prefix: bytes, node: nat)
  datatype RNode<V> = Branch(edge: nat, len: nat) | Leaf(value: V)

  /** The two arrays, the edge slots handed out so far, the number of slots of a branch, and
      what they stand for: the bytes that spell each node, and the tokens with their values. */
  datatype Arena<V> = Arena(nodes: seq<RNode<V>>, edges: seq<REdge>, elen: nat, b: nat,
                            path: seq<bytes>, tokens: map<bytes, V>)
  {
    ghost predicate Owns(n: nat, e: int) {
      n < |path| && n < |nodes| && nodes[n].Branch? && nodes[n].edge <= e < nodes[n].edge + nodes[n].len
    }

    /** Edge `e` of branch `n` leads where its prefix says. */
    ghost predicate EdgeOk(n: nat, e: int)
      requires Owns(n, e)
    {
      && e < |edges| && edges[e].prefix != [] && edges[e].node < |path|
      && path[edges[e].node] == path[n] + edges[e].prefix
    }

    ghost predicate Edges(n: nat) {
      forall e | Owns(n, e) :: EdgeOk(n, e)
    }

    /** The edges of a branch start with different bytes. */
    ghost predicate Fork(n: nat)
      requires Edges(n)
    {
      forall e, f | Owns(n, e) && Owns(n, f) && e < f :: edges[e].prefix[0] != edges[f].prefix[0]
    }

    /** No token below a branch is lost. */
    ghost predicate Covers(n: nat)
      requires n < |path| && Edges(n)
    {
      forall t | t in tokens && path[n] <= t :: exists e :: Owns(n, e) && path[n] + edges[e].prefix <= t
    }

    ghost predicate BranchOk(n: nat)
      requires n < |path| <= |nodes| && nodes[n].Branch?
    {
      && nodes[n].len <= b && nodes[n].edge + b <= elen
      && Edges(n) && Fork(n) && Covers(n)
      && forall e, k | Owns(n, e) && 0 <= k < |path| :: Tight(n, e, k)
    }

    /** No node lies inside edge `e`. */
    ghost predicate Tight(n: nat, e: int, k: nat)
      requires Owns(n, e) && EdgeOk(n, e) && k < |path|
    {
      path[n] <= path[k] <= path[edges[e].node] ==> k == n || k == edges[e].node
    }

    ghost predicate NodeOk(n: nat)
      requires n < |path| <= |nodes|
    {
      && (exists t :: t in tokens && path[n] <= t)
      && (nodes[n].Leaf? ==> path[n] in tokens && tokens[path[n]] == nodes[n].value)
      && (nodes[n].Branch? ==> BranchOk(n))
    }

    /** Every branch has a block of `b` slots to itself. */
    ghost predicate Disjoint()
      requires |path| <= |nodes|
    {
      forall m, n | 0 <= m < n < |path| && nodes[m].Branch? && nodes[n].Branch? ::
        nodes[m].edge + b <= nodes[n].edge || nodes[n].edge + b <= nodes[m].edge
    }

    /** Every leaf has a token to itself. */
    ghost predicate LeavesDiffer()
      requires |path| <= |nodes|
    {
      forall m, n | 0 <= m < n < |path| && nodes[m].Leaf? && nodes[n].Leaf? :: path[m] != path[n]
    }

    ghost predicate Inv() {
      && 0 < |path| <= |nodes| && nodes[0].Branch? && path[0] == []
      && Disjoint() && LeavesDiffer() && PrefixFree(tokens)
      && forall n | 0 <= n < |path| :: NodeOk(n)
    }

    ghost predicate Owned(e: nat) { exists n: nat :: Owns(n, e) }

    /** A position: a node, or a point behind the first byte of an edge. */
    ghost predicate Position(at: RLookup) {
      match at
      case Node(n) => n < |path| && n < |nodes|
      case Edge(e, read) => Owned(e) && e < |edges| && 1 <= read <= |edges[e].prefix|
    }

    /** A position that a lookup leaves behind when it asks for more bytes: no leaf and no
        finished edge. */
    ghost predicate Stored(at: RLookup) {
      Position(at) && if at.Node? then nodes[at.node].Branch? else at.read < |edges[at.edge].prefix|
    }

    /** The bytes that lead from the root to a position. */
    ghost function Spelled(at: RLookup): bytes
      requires Inv() && Position(at)
    {
      match at
      case Node(n) => path[n]
      case Edge(e, read) =>
        var n: nat :| Owns(n, e);
        path[n] + edges[e].prefix[..read]
    }

    lemma EdgeFacts(n: nat, e: nat)
      requires Inv() && Owns(n, e)
      ensures EdgeOk(n, e) && Position(Edge(e, 1))
      ensures forall read | 1 <= read <= |edges[e].prefix| ::
        Spelled(Edge(e, read)) == path[n] + edges[e].prefix[..read]
      ensures Spelled(Edge(e, |edges[e].prefix|)) == path[edges[e].node]
    {
      assert NodeOk(n) && EdgeOk(n, e);
      forall m: nat | Owns(m, e)
        ensures m == n
      {
        assert NodeOk(m);
      }
    }

    lemma NodeFacts(n: nat)
      requires Inv() && n < |path|
      ensures |path| <= |nodes|
      ensures nodes[n].Leaf? ==> path[n] in tokens && tokens[path[n]] == nodes[n].value
    {
      assert NodeOk(n);
    }

    lemma TokenBelow(n: nat) returns (t: bytes)
      requires Inv() && n < |path|
      ensures t in tokens && path[n] <= t
    {
      assert NodeOk(n);
      t :| t in tokens && path[n] <= t;
    }

    /** Where more bytes are needed, there are tokens to be completed. */
    lemma StoredIsOpen(at: RLookup)
      requires Inv() && Stored(at)
      ensures Open(tokens, Spelled(at))
    {
      match at
      case Node(n) =>
        assert NodeOk(n);
        var t :| t in tokens && path[n] <= t;
        var e :| Owns(n, e) && path[n] + edges[e].prefix <= t;
        assert EdgeOk(n, e);
      case Edge(e, read) =>
        var n: nat :| Owns(n, e);
        EdgeFacts(n, e);
        assert NodeOk(edges[e].node);
        var t :| t in tokens && path[edges[e].node] <= t;
        assert Spelled(at) < path[edges[e].node];
    }

    /** A token below branch `n` leaves it by an edge that it follows to the end. */
    lemma TokenEdge(n: nat, t: bytes) returns (e: nat)
      requires Inv() && n < |path| && nodes[n].Branch? && t in tokens && path[n] <= t
      ensures Owns(n, e) && EdgeOk(n, e) && path[n] + edges[e].prefix <= t
      ensures |path[n]| < |t| && t[|path[n]|] == edges[e].prefix[0]
    {
      assert NodeOk(n);
      e :| Owns(n, e) && path[n] + edges[e].prefix <= t;
      assert EdgeOk(n, e);
      assert (path[n] + edges[e].prefix)[|path[n]|] == edges[e].prefix[0];
    }

    /** If no edge of branch `n` starts with `x`, no token goes on with `x`. */
    lemma NoEdge(n: nat, x: byte)
      requires Inv() && n < |path| && nodes[n].Branch?
      requires forall e: nat | Owns(n, e) :: EdgeOk(n, e) && edges[e].prefix[0] != x
      ensures forall t | t in tokens :: !(path[n] + [x] <= t)
    {
      hide Inv;
      forall t | t in tokens
        ensures !(path[n] + [x] <= t)
      {
        if path[n] + [x] <= t {
          assert t[|path[n]|] == x by { assert (path[n] + [x])[|path[n]|] == x; }
          var e := TokenEdge(n, t);
        }
      }
    }

    lemma NodeSpelled(n: nat)
      requires Inv() && Position(Node(n))
      ensures Spelled(Node(n)) == path[n]
    {}

    lemma EdgeEnd(e: nat)
      requires Inv() && e < |edges| && Position(Edge(e, |edges[e].prefix|))
      ensures Position(Node(edges[e].node))
      ensures Spelled(Node(edges[e].node)) == Spelled(Edge(e, |edges[e].prefix|))
    {
      var n: nat :| Owns(n, e);
      EdgeFacts(n, e);
    }

    /** If an edge does not go on with `x`, no token does. */
    lemma OffEdge(e: nat, read: nat, x: byte)
      requires Inv() && Stored(Edge(e, read)) && edges[e].prefix[read] != x
      ensures forall t | t in tokens :: !(Spelled(Edge(e, read)) + [x] <= t)
    {
      hide Inv;
      var n: nat :| Owns(n, e);
      EdgeFacts(n, e);
      var p, s := edges[e].prefix, path[n] + edges[e].prefix[..read];
      assert (path[n] + p)[|s|] == p[read];
      forall t | t in tokens
        ensures !(s + [x] <= t)
      {
        if s + [x] <= t {
          assert t[|s|] == x by { assert (s + [x])[|s|] == x; }
          assert t[|path[n]|] == p[0] by { assert s[|path[n]|] == p[0]; }
          var f := TokenEdge(n, t);
          SameFirstByte(n, e, f);
        }
      }
    }

    lemma SameFirstByte(n: nat, e: nat, f: nat)
      requires Inv() && Owns(n, e) && Owns(n, f) && EdgeOk(n, e) && EdgeOk(n, f)
      requires edges[e].prefix[0] == edges[f].prefix[0]
      ensures e == f
    {
      assert NodeOk(n);
    }

    lemma TightFacts(n: nat, e: nat, k: nat)
      requires Inv() && Owns(n, e) && EdgeOk(n, e) && k < |path|
      requires path[n] <= path[k] <= path[edges[e].node]
      ensures k == n || k == edges[e].node
    {
      assert NodeOk(n) && Tight(n, e, k);
    }

    lemma Below(at: RLookup) returns (t: bytes)
      requires Inv() && Stored(at)
      ensures t in tokens && Spelled(at) < t
      ensures at.Edge? ==> forall n: nat | Owns(n, at.edge) :: path[n] + edges[at.edge].prefix <= t
    {
      hide Inv, NodeOk, BranchOk, Spelled;
      if at.Node? {
        StoredIsOpen(at);
        t :| t in tokens && Spelled(at) < t;
      } else {
        var n: nat :| Owns(n, at.edge);
        EdgeFacts(n, at.edge);
        t := TokenBelow(edges[at.edge].node);
        forall m: nat | Owns(m, at.edge)
          ensures m == n
        {
          SameOwner(m, n, at.edge);
        }
        var p := edges[at.edge].prefix;
        assert p[..at.read] < p && Spelled(at) < path[n] + p;
      }
    }

    /** A branch above a position is passed by an edge: either the position is on it, or the
        edge is followed to its end. */
    lemma Passes(m: nat, at: RLookup) returns (e: nat)
      requires Inv() && Stored(at) && m < |path| && nodes[m].Branch?
      requires path[m] <= Spelled(at) && at != Node(m)
      ensures Owns(m, e) && EdgeOk(m, e)
      ensures (at.Edge? && at.edge == e) || path[m] + edges[e].prefix <= Spelled(at)
    {
      hide Inv;
      var t := Below(at);
      e := TokenEdge(m, t);
      var c, p := path[m] + edges[e].prefix, Spelled(at);
      PrefixesOfOne(c, p, t);
      if !(c <= p) {
        match at
        case Node(n) =>
          TightFacts(m, e, n);
        case Edge(e0, read) =>
          var m0: nat :| Owns(m0, e0);
          EdgeFacts(m0, e0);
          var c0 := path[edges[e0].node];
          PrefixesOfOne(c, c0, t);
          assert path[m0] <= p && p < c0;
          if c <= c0 { TightFacts(m0, e0, edges[e].node); } else { TightFacts(m, e, edges[e0].node); }
          PrefixesOfOne(path[m], path[m0], p);
          if path[m] <= path[m0] { TightFacts(m, e, m0); } else { TightFacts(m0, e0, m); }
          assert m == m0;
          assert edges[e].prefix[0] == edges[e0].prefix[0] by {
            assert c0[|path[m]|] == edges[e0].prefix[0] && c[|path[m]|] == edges[e].prefix[0];
          }
          SameFirstByte(m, e, e0);
      }
    }

    /** `token` leaves the tree at position `at`, after its first `idx` bytes. */
    ghost predicate Leaves(token: bytes, idx: nat, at: RLookup)
      requires Inv()
    {
      && Stored(at) && idx < |token| && Spelled(at) == token[..idx]
      && forall t | t in tokens :: !(token[..idx + 1] <= t)
    }

    /** A token that leaves the tree can be added to the map, and no node is on its last part. */
    lemma LeavesFacts(token: bytes, idx: nat, at: RLookup, v: V)
      requires Inv() && Leaves(token, idx, at)
      ensures PrefixFree(tokens[token := v]) && forall t | t in tokens :: !(t <= token) && !(token <= t)
      ensures forall k | 0 <= k < |path| :: !(token <= path[k]) && (path[k] <= token ==> path[k] <= token[..idx])
    {
      var u := Below(at);
      var p := token[..idx + 1];
      assert p <= token;
      forall t | t in tokens
        ensures !(t <= token) && !(token <= t)
      {
        if t <= token { PrefixesOfOne(t, p, token); }
        ShorterPrefix(t, p);
        assert p[..idx] == token[..idx] && (t <= token[..idx] ==> t <= u);
        assert token <= t ==> p <= t;
      }
      forall k | 0 <= k < |path|
        ensures !(token <= path[k]) && (path[k] <= token ==> path[k] <= token[..idx])
      {
        assert NodeOk(k);
        var t :| t in tokens && path[k] <= t;
        if path[k] <= token { PrefixesOfOne(path[k], p, token); }
        assert p <= path[k] ==> p <= t;
      }
    }

    function AddLeaf(n: nat, token: bytes, idx: nat, v: V): Arena<V>
      requires n < |path| < |nodes| && nodes[n].Branch? && idx <= |token|
      requires nodes[n].edge + nodes[n].len < |edges|
    {
      Arena(nodes[|path| := Leaf(v)][n := Branch(nodes[n].edge, nodes[n].len + 1)],
            edges[nodes[n].edge + nodes[n].len := REdge(token[idx..], |path|)],
            elen, b, path + [token], tokens[token := v])
    }

    ghost predicate CanAddLeaf(n: nat, token: bytes, idx: nat) {
      && Inv() && Leaves(token, idx, Node(n))
      && |path| < |nodes| && nodes[n].len < b && nodes[n].edge + nodes[n].len < |edges|
    }

    /** A branch that an insertion leaves alone stays in order, provided that the new tokens
        are covered and no new node lies on its edges. */
    lemma Untouched(a: Arena<V>, m: nat)
      requires m < |path| <= |nodes| && nodes[m].Branch? && BranchOk(m)
      requires path <= a.path && |a.path| <= |a.nodes| && a.nodes[m] == nodes[m] && a.b == b && elen <= a.elen
      requires forall e | Owns(m, e) :: e < |a.edges| && a.edges[e] == edges[e]
      requires forall t | t in a.tokens && t !in tokens && path[m] <= t ::
        exists e :: Owns(m, e) && path[m] + edges[e].prefix <= t
      requires forall e, k | Owns(m, e) && |path| <= k < |a.path| :: !(path[m] <= a.path[k] <= path[edges[e].node])
      ensures a.BranchOk(m)
    {
      forall e | a.Owns(m, e)
        ensures Owns(m, e) && a.EdgeOk(m, e)
      {
        assert Owns(m, e) && EdgeOk(m, e);
      }
      assert a.Fork(m);
      forall t | t in a.tokens && a.path[m] <= t
        ensures exists e :: a.Owns(m, e) && a.path[m] + a.edges[e].prefix <= t
      {
        var e :| Owns(m, e) && path[m] + edges[e].prefix <= t;
        assert a.Owns(m, e);
      }
      forall e, k: nat | a.Owns(m, e) && k < |a.path|
        ensures a.Tight(m, e, k)
      {
        assert Owns(m, e) && EdgeOk(m, e);
        if k < |path| { assert Tight(m, e, k); }
      }
    }

    lemma AddLeafElsewhere(n: nat, token: bytes, idx: nat, v: V, m: nat)
      requires CanAddLeaf(n, token, idx) && m < |path| && m != n && nodes[m].Branch?
      ensures AddLeaf(n, token, idx, v).BranchOk(m)
    {
      LeavesFacts(token, idx, Node(n), v);
      var a := AddLeaf(n, token, idx, v);
      assert NodeOk(m) && NodeOk(n);
      forall e | Owns(m, e)
        ensures e < |a.edges| && a.edges[e] == edges[e] && EdgeOk(m, e) && !(token <= path[edges[e].node])
      {
        assert EdgeOk(m, e);
      }
      if path[m] <= token {
        var e := Passes(m, Node(n));
        assert Owns(m, e) && path[m] + edges[e].prefix <= token;
      }
      hide Inv;
      Untouched(a, m);
    }

    /** The new edge at `n`: it leads to the new leaf, differs from its siblings at once, and
        passes no other node. */
    lemma NewEdge(n: nat, token: bytes, idx: nat, e: nat)
      requires Inv() && Leaves(token, idx, Node(n)) && Owns(n, e)
      ensures EdgeOk(n, e) && edges[e].prefix[0] != token[idx]
      ensures forall k | 0 <= k < |path| && path[n] <= path[k] <= token[..idx] :: k == n
    {
      hide Inv, Spelled;
      EdgeFacts(n, e);
      NodeSpelled(n);
      var q, c := token[..idx + 1], path[edges[e].node];
      var t := TokenBelow(edges[e].node);
      assert c[idx] == edges[e].prefix[0] && c[..idx] == q[..idx];
      assert c[idx] == q[idx] ==> q <= c;
      forall k: nat | k < |path| && path[n] <= path[k] <= token[..idx]
        ensures k == n
      {
        TightFacts(n, e, k);
      }
    }

    /** A branch that gets one more edge, to the new leaf for `token`. */
    lemma Grown(a: Arena<V>, n: nat, x: nat, token: bytes)
      requires n < |path| <= |nodes| && nodes[n].Branch? && BranchOk(n) && nodes[n].len < b
      requires a.path == path + [token] && |a.path| <= |a.nodes| && a.b == b && a.elen == elen && x < |edges|
      requires x == nodes[n].edge + nodes[n].len && a.nodes[n] == Branch(nodes[n].edge, nodes[n].len + 1)
      requires path[n] < token && a.edges == edges[x := REdge(token[|path[n]|..], |path|)]
      requires forall t | t in a.tokens && t !in tokens :: t == token
      requires forall e | Owns(n, e) :: edges[e].prefix[0] != token[|path[n]|]
      requires forall k | 0 <= k < |path| :: !(token <= path[k]) && (path[n] <= path[k] <= token ==> k == n)
      ensures a.BranchOk(n)
    {
      assert token == path[n] + token[|path[n]|..];
      forall e | a.Owns(n, e)
        ensures a.EdgeOk(n, e)
      {
        if e != x { assert Owns(n, e) && EdgeOk(n, e); }
      }
      assert a.Fork(n);
      forall t | t in a.tokens && a.path[n] <= t
        ensures exists e :: a.Owns(n, e) && a.path[n] + a.edges[e].prefix <= t
      {
        if t == token {
          assert a.Owns(n, x);
        } else {
          var e :| Owns(n, e) && path[n] + edges[e].prefix <= t;
          assert a.Owns(n, e);
        }
      }
      forall e, k: nat | a.Owns(n, e) && k < |a.path|
        ensures a.Tight(n, e, k)
      {
        if e != x && k < |path| { assert Tight(n, e, k); }
      }
    }

    lemma AddLeafHere(n: nat, token: bytes, idx: nat, v: V)
      requires CanAddLeaf(n, token, idx)
      ensures AddLeaf(n, token, idx, v).BranchOk(n)
    {
      LeavesFacts(token, idx, Node(n), v);
      NodeSpelled(n);
      assert NodeOk(n);
      hide Inv, NodeOk, Spelled, BranchOk;
      var t0 := TokenBelow(n);
      var e0 := TokenEdge(n, t0);
      NewEdge(n, token, idx, e0);
      forall e: nat | Owns(n, e)
        ensures edges[e].prefix[0] != token[idx]
      {
        NewEdge(n, token, idx, e);
      }
      Grown(AddLeaf(n, token, idx, v), n, nodes[n].edge + nodes[n].len, token);
    }

    lemma AddLeafInv(n: nat, token: bytes, idx: nat, v: V)
      requires CanAddLeaf(n, token, idx)
      ensures AddLeaf(n, token, idx, v).Inv()
    {
      var a := AddLeaf(n, token, idx, v);
      LeavesFacts(token, idx, Node(n), v);
      forall m: nat | m < |a.path|
        ensures a.NodeOk(m)
      {
        if m == |path| {
          assert token in a.tokens && a.path[m] <= token;
        } else {
          assert NodeOk(m);
          var t :| t in tokens && path[m] <= t;
          assert t in a.tokens && a.path[m] <= t;
          hide BranchOk;
          if m == n { AddLeafHere(n, token, idx, v); }
          else if nodes[m].Branch? { AddLeafElsewhere(n, token, idx, v, m); }
        }
      }
      forall m: nat | m < |path| && nodes[m].Leaf?
        ensures path[m] != token
      {
        assert NodeOk(m);
      }
      hide NodeOk;
    }

    /** The first half of an edge split: a new branch at `read`, with what is left of the edge. */
    function Divide(e: nat, read: nat, mid: bytes): Arena<V>
      requires e < |edges| && read <= |edges[e].prefix| && |path| < |nodes| && elen < |edges|
    {
      var REdge(prefix, c) := edges[e];
      Arena(nodes[|path| := Branch(elen, 1)],
            edges[elen := REdge(prefix[read..], c)][e := REdge(prefix[..read], |path|)],
            elen + b, b, path + [mid], tokens)
    }

    ghost predicate CanDivide(m: nat, e: nat, read: nat, mid: bytes) {
      && Inv() && Owns(m, e) && Stored(Edge(e, read)) && mid == path[m] + edges[e].prefix[..read]
      && |path| < |nodes| && elen < |edges| && 0 < b
    }

    lemma DivideAbove(m: nat, e: nat, read: nat, mid: bytes, n: nat, f: nat)
      requires CanDivide(m, e, read, mid) && n < |path| && Owns(n, f) && f != e
      ensures EdgeOk(n, f) && !(path[n] <= mid <= path[edges[f].node])
    {
      hide Inv, Spelled;
      EdgeFacts(m, e);
      EdgeFacts(n, f);
      if path[n] <= mid <= path[edges[f].node] {
        var g := Passes(n, Edge(e, read));
        if g == e {
          SameOwner(m, n, e);
        }
        var c := path[edges[f].node];
        if |path[n]| < |mid| {
          assert c[|path[n]|] == mid[|path[n]|] == edges[f].prefix[0];
          assert (path[n] + edges[g].prefix)[|path[n]|] == edges[g].prefix[0];
          SameFirstByte(n, f, g);
        }
        TightFacts(m, e, edges[f].node);
      }
    }

    lemma SameOwner(m: nat, n: nat, e: nat)
      requires Inv() && Owns(m, e) && Owns(n, e)
      ensures m == n
    {
      assert NodeOk(m) && NodeOk(n);
    }

    lemma DivideElsewhere(m: nat, e: nat, read: nat, mid: bytes, n: nat)
      requires CanDivide(m, e, read, mid) && n < |path| && n != m && nodes[n].Branch?
      ensures Divide(e, read, mid).BranchOk(n)
    {
      assert NodeOk(n) && NodeOk(m);
      var a := Divide(e, read, mid);
      forall f: nat | Owns(n, f)
        ensures f < |a.edges| && a.edges[f] == edges[f] && EdgeOk(n, f) && !(path[n] <= mid <= path[edges[f].node])
      {
        assert f != e;
        DivideAbove(m, e, read, mid, n, f);
      }
      hide Inv, NodeOk, BranchOk;
      Untouched(a, n);
    }

    lemma DivideOwner(m: nat, e: nat, read: nat, mid: bytes)
      requires CanDivide(m, e, read, mid)
      ensures Divide(e, read, mid).BranchOk(m)
    {
      hide LeavesDiffer, Disjoint;
      assert NodeOk(m);
      var a := Divide(e, read, mid);
      EdgeFacts(m, e);
      forall f: nat | Owns(m, f) && f != e
        ensures a.edges[f] == edges[f] && EdgeOk(m, f) && !(path[m] <= mid <= path[edges[f].node])
      {
        DivideAbove(m, e, read, mid, m, f);
      }
      hide Inv, NodeOk, Spelled;
      assert a.EdgeOk(m, e);
      assert a.Edges(m);
      assert a.Fork(m);
      forall t | t in tokens && path[m] <= t
        ensures exists f :: a.Owns(m, f) && path[m] + a.edges[f].prefix <= t
      {
        var f :| Owns(m, f) && path[m] + edges[f].prefix <= t;
        assert a.Owns(m, f);
        assert f == e ==> mid <= path[m] + edges[e].prefix;
      }
      forall f, k: nat | a.Owns(m, f) && k < |a.path|
        ensures a.Tight(m, f, k)
      {
        if k < |path| { assert Tight(m, f, k); }
        assert f == e ==> mid <= path[edges[e].node];
      }
    }

    lemma DivideNew(m: nat, e: nat, read: nat, mid: bytes)
      requires CanDivide(m, e, read, mid)
      ensures Divide(e, read, mid).NodeOk(|path|)
    {
      hide LeavesDiffer, Disjoint;
      var a := Divide(e, read, mid);
      EdgeFacts(m, e);
      assert NodeOk(m);
      hide Inv, NodeOk, Spelled;
      var p, c := edges[e].prefix, edges[e].node;
      assert path[c] == mid + p[read..];
      var t0 := TokenBelow(c);
      assert mid <= t0;
      forall t | t in tokens && mid <= t
        ensures mid + p[read..] <= t
      {
        assert t[|path[m]|] == mid[|path[m]|] == p[0];
        var f := TokenEdge(m, t);
        SameFirstByte(m, e, f);
      }
      assert a.Owns(|path|, elen) && a.EdgeOk(|path|, elen);
      forall k: nat | k < |a.path|
        ensures a.Tight(|path|, elen, k)
      {
        if k < |path| { assert Tight(m, e, k); }
      }
    }

    lemma DivideInv(m: nat, e: nat, read: nat, mid: bytes)
      requires CanDivide(m, e, read, mid)
      ensures Divide(e, read, mid).Inv()
    {
      var a := Divide(e, read, mid);
      forall n: nat | n < |a.path|
        ensures a.NodeOk(n)
      {
        if n == |path| {
          DivideNew(m, e, read, mid);
        } else {
          assert NodeOk(n);
          var t :| t in tokens && path[n] <= t;
          assert t in a.tokens && a.path[n] <= t;
          hide BranchOk;
          if n == m { DivideOwner(m, e, read, mid); }
          else if nodes[n].Branch? { DivideElsewhere(m, e, read, mid, n); }
        }
      }
      forall n: nat | n < |path| && nodes[n].Branch?
        ensures nodes[n].edge + b <= elen
      {
        assert NodeOk(n);
      }
      hide NodeOk;
    }

    // ---------- lookups ----------

    /** `input`, read from `from` on, leads to `at` after `n` bytes. */
    ghost predicate Leads(from: RLookup, input: bytes, n: nat, at: RLookup)
      requires Inv()
    {
      Position(from) && Position(at) && n <= |input| && Spelled(at) == Spelled(from) + input[..n]
    }

    /** What a lookup must return: a match stops behind the one token that is spelled, a
        mismatch stops at the longest common prefix with any token, and otherwise the position
        is left inside the tree. */
    ghost predicate Answers(from: RLookup, input: bytes, at: RLookup, r: RMatch)
      requires Inv()
    {
      match r
      case Match(n) => Leads(from, input, n, at) && at.Node? && nodes[at.node].Leaf?
      case More => Leads(from, input, |input|, at) && Stored(at)
      case Differ(n) =>
        && n < |input| && Leads(from, input, n, at) && Stored(at)
        && forall t | t in tokens :: !(Spelled(from) + input[..n + 1] <= t)
    }

    /** The answer is the verdict of the plain map on all the bytes seen so far, `z`. */
    lemma AnswerIsVerdict(from: RLookup, input: bytes, z: bytes, at: RLookup, r: RMatch)
      requires Inv() && Position(from) && Answers(from, input, at, r) && z == Spelled(from) + input
      ensures var v := Look(tokens, z);
        && (r.Match? <==> v.Matched?) && (r.More? <==> v.NeedsMore?) && (r.Differ? <==> v.Mismatch?)
        && (v.Matched? ==> v.token == Spelled(at) && r.n == |v.token| - |Spelled(from)|)
    {
      assert PrefixFree(tokens);
      hide Inv, Spelled, Look;
      match r
      case Match(n) =>
        NodeFacts(at.node);
        NodeSpelled(at.node);
        assert Spelled(at) <= z;
        LookMatched(tokens, Spelled(at), z);
      case More =>
        StoredIsOpen(at);
        FullLength(from, input, at);
        LookOpen(tokens, z, z);
      case Differ(n) =>
        WhereTheyDiffer(from, input, z, at, n);
        LookDiffers(tokens, z, |Spelled(from)| + n);
    }

    lemma FullLength(from: RLookup, input: bytes, at: RLookup)
      requires Inv() && Answers(from, input, at, More)
      ensures Spelled(at) == Spelled(from) + input
    {
      assert input[..|input|] == input;
    }

    lemma WhereTheyDiffer(from: RLookup, input: bytes, z: bytes, at: RLookup, n: nat)
      requires Inv() && Position(from) && Answers(from, input, at, Differ(n)) && z == Spelled(from) + input
      ensures var k := |Spelled(from)| + n;
        k < |z| && Spelled(at) == z[..k] && Differs(tokens, z, k)
    {
      hide Inv, Spelled;
      StoredIsOpen(at);
      var s := Spelled(from);
      assert z[..|s| + n] == s + input[..n] && z[..|s| + n + 1] == s + input[..n + 1];
    }

    /** Stored positions are told apart by what they spell. */
    lemma SamePosition(at: RLookup, to: RLookup)
      requires Inv() && Stored(at) && Stored(to) && Spelled(at) == Spelled(to)
      ensures at == to
    {
      hide Inv, Spelled;
      if at.Node? && at != to {
        NodeSpelled(at.node);
        var e := Passes(at.node, to);
        EdgeFacts(at.node, e);
      } else if to.Node? && at != to {
        NodeSpelled(to.node);
        var e := Passes(to.node, at);
        EdgeFacts(to.node, e);
      } else if at.Edge? {
        var n: nat :| Owns(n, at.edge);
        EdgeFacts(n, at.edge);
        var e := Passes(n, to);
        EdgeFacts(n, e);
        assert (path[n] + edges[e].prefix)[|path[n]|] == edges[e].prefix[0];
        assert Spelled(at)[|path[n]|] == edges[at.edge].prefix[0];
        SameFirstByte(n, e, at.edge);
      }
    }

    /** Feeding an input in two pieces is feeding it at once: same verdict, counts that add up,
        and the same position in the tree. */
    lemma ResumableLookup(from: RLookup, x: bytes, y: bytes, mid: RLookup, at: RLookup, r: RMatch,
                          to: RLookup, q: RMatch)
      requires Inv() && Answers(from, x, mid, More)
      requires Position(from) && Position(mid) && Answers(mid, y, at, r) && Answers(from, x + y, to, q)
      ensures q == match r { case Match(n) => Match(n + |x|) case More => More case Differ(n) => Differ(n + |x|) }
      ensures at == to
    {
      hide Inv, Spelled, Look, Stored, Leads, Differs;
      var z := Spelled(from) + x + y;
      FullLength(from, x, mid);
      assert Spelled(from) + (x + y) == z;
      AnswerIsVerdict(mid, y, z, at, r);
      AnswerIsVerdict(from, x + y, z, to, q);
      if r.Differ? {
        WhereTheyDiffer(mid, y, z, at, r.n);
        WhereTheyDiffer(from, x + y, z, to, q.n);
        SameDepth(tokens, z, |Spelled(mid)| + r.n, |Spelled(from)| + q.n);
      } else if r.More? {
        FullLength(mid, y, at);
        FullLength(from, x + y, to);
      }
      AnswerPosition(mid, y, at, r);
      AnswerPosition(from, x + y, to, q);
      if r.Match? { SameLeaf(at, to); } else { SamePosition(at, to); }
    }

    lemma AnswerPosition(from: RLookup, input: bytes, at: RLookup, r: RMatch)
      requires Inv() && Answers(from, input, at, r)
      ensures Position(at)
    {
      hide Inv, Spelled;
    }

    lemma SameLeaf(at: RLookup, to: RLookup)
      requires Inv() && Position(at) && Position(to) && at.Node? && to.Node? && Spelled(at) == Spelled(to)
      requires nodes[at.node].Leaf? && nodes[to.node].Leaf?
      ensures at == to
    {
      NodeSpelled(at.node);
      NodeSpelled(to.node);
      assert LeavesDiffer();
      hide Spelled, NodeOk;
    }

    lemma LeadsOn(from: RLookup, input: bytes, n: nat, at: RLookup, k: nat, to: RLookup)
      requires Inv() && Leads(from, input, n, at) && Position(to) && n + k <= |input|
      requires Spelled(to) == Spelled(at) + input[n..][..k]
      ensures Leads(from, input, n + k, to)
    {
      assert input[..n + k] == input[..n] + input[n..][..k];
    }

    lemma Blocked(from: RLookup, input: bytes, n: nat, at: RLookup)
      requires Inv() && Leads(from, input, n, at) && n < |input|
      requires forall t | t in tokens :: !(Spelled(at) + [input[n]] <= t)
      ensures forall t | t in tokens :: !(Spelled(from) + input[..n + 1] <= t)
    {
      assert Spelled(from) + input[..n + 1] == Spelled(at) + [input[n]];
    }

    lemma DifferLeaves(token: bytes, idx: nat, at: RLookup)
      requires Inv() && Answers(Node(0), token, at, Differ(idx))
      ensures Leaves(token, idx, at)
    {
      assert Spelled(Node(0)) == [];
      assert [] + token[..idx] == token[..idx] && [] + token[..idx + 1] == token[..idx + 1];
    }

    /** After the edge is divided, the token leaves the tree at the new branch. */
    lemma DivideReady(e: nat, read: nat, token: bytes, idx: nat)
      requires Inv() && Leaves(token, idx, Edge(e, read)) && |path| < |nodes| && elen < |edges| && 0 < b
      ensures Position(Edge(e, read))
      ensures var a := Divide(e, read, token[..idx]); a.Inv() && a.Leaves(token, idx, Node(|path|))
    {
      var m: nat :| Owns(m, e);
      EdgeFacts(m, e);
      DivideInv(m, e, read, token[..idx]);
    }

    lemma LeafReady(token: bytes, idx: nat, at: RLookup)
      requires Inv() && Leaves(token, idx, at)
      ensures Stored(at) && |path| <= |nodes| && idx < |token|
      ensures at.Node? ==> nodes[at.node].len <= b && nodes[at.node].edge + b <= elen
    {
      if at.Node? { assert NodeOk(at.node); }
    }

    lemma NotDiffer(token: bytes, at: RLookup, r: RMatch)
      requires Inv() && Answers(Node(0), token, at, r) && !r.Differ?
      ensures exists t :: t in tokens && (t <= token || token <= t)
    {
      assert Spelled(Node(0)) == [];
      assert Spelled(at) <= token;
      if r.Match? {
        NodeFacts(at.node);
      } else {
        FullLength(Node(0), token, at);
        StoredIsOpen(at);
        var t :| t in tokens && Spelled(at) < t;
      }
    }

    /** A token whose first byte is new leaves the tree at the root. */
    lemma RootLeaves(token: bytes, idx: nat, at: RLookup)
      requires Inv() && Leaves(token, idx, at)
      ensures (forall t | t in tokens :: !(token[..1] <= t)) ==> at.Node?
    {
      if forall t | t in tokens :: !(token[..1] <= t) {
        var t := Below(at);
        var p, q := token[..idx], token[..1];
        assert idx > 0 ==> q <= p;
        assert Spelled(Node(0)) == [] == Spelled(at);
        SamePosition(at, Node(0));
      }
    }

    /** The edges of a full branch lead to tokens that part ways there. */
    lemma FullBranch(n: nat, token: bytes, idx: nat)
      requires Inv() && Leaves(token, idx, Node(n)) && nodes[n].len >= 2
      ensures Crowded(tokens, token)
    {
      hide Inv;
      NodeSpelled(n);
      var e, f := nodes[n].edge, nodes[n].edge + 1;
      EdgeFacts(n, e);
      EdgeFacts(n, f);
      var t := TokenBelow(edges[e].node);
      var u := TokenBelow(edges[f].node);
      assert t[idx] == edges[e].prefix[0] && u[idx] == edges[f].prefix[0];
      if t[idx] == u[idx] { SameFirstByte(n, e, f); }
      assert Crowd(tokens, token, idx, t, u);
    }
  }

  ghost predicate Crowd<V>(tokens: map<bytes, V>, token: bytes, i: nat, t: bytes, u: bytes) {
    && t in tokens && u in tokens && i < |token| && i < |t| && i < |u|
    && token[..i] == t[..i] == u[..i] && t[i] != u[i]
    && forall w | w in tokens :: !(token[..i + 1] <= w)
  }

  /** Where `token` leaves the tokens, two of them part ways already. */
  ghost predicate Crowded<V>(tokens: map<bytes, V>, token: bytes) {
    exists i, t, u :: Crowd(tokens, token, i, t, u)
  }

  lemma FirstToken<V>(a: Arena<V>, token: bytes, v: V)
    requires a.path == [[], token] && a.tokens == map[token := v] && token != []
    requires |a.nodes| >= 2 && a.nodes[0] == Branch(0, 1) && a.nodes[1] == Leaf(v) && 0 < a.b <= a.elen
    requires |a.edges| > 0 && a.edges[0] == REdge(token, 1)
    ensures a.Inv()
  {
    assert [] + token == token;
    assert token in a.tokens && a.path[0] <= token && a.path[1] <= token;
    assert a.Owns(0, 0) && a.EdgeOk(0, 0);
    assert a.NodeOk(1);
    assert a.BranchOk(0);
    assert a.NodeOk(0);
  }

  /** Which edge of a branch starts with `x`. */
  method FindEdge<V>(nodes: seq<RNode<V>>, edges: seq<REdge>, ghost a: Arena<V>, n: nat, x: byte)
      returns (found: bool, e: nat)
    requires a.Inv() && a.nodes == nodes && a.edges == edges && n < |a.path| && nodes[n].Branch?
    ensures found ==> a.Position(Edge(e, 1)) && a.Spelled(Edge(e, 1)) == a.path[n] + [x]
    ensures !found ==> forall t | t in a.tokens :: !(a.path[n] + [x] <= t)
  {
    hide Arena.Inv;
    a.NodeFacts(n);
    var Branch(edge, len) := nodes[n];
    e := edge;
    while e < edge + len
      invariant edge <= e <= edge + len
      invariant forall i: nat | edge <= i < e :: a.Owns(n, i) && a.EdgeOk(n, i) && edges[i].prefix[0] != x
    {
      assert a.Owns(n, e);
      a.EdgeFacts(n, e);
      if edges[e].prefix[0] == x {
        assert edges[e].prefix[..1] == [x];
        return true, e;
      }
      e := e + 1;
    }
    a.NoEdge(n, x);
    found := false;
  }

  /** How far `buf` follows edge `e` from `from` on. */
  method FollowEdge<V>(edges: seq<REdge>, ghost a: Arena<V>, e: nat, from: nat, buf: bytes) returns (read: nat)
    requires a.Inv() && a.edges == edges && a.Position(Edge(e, from))
    ensures from <= read <= |edges[e].prefix| && read - from <= |buf|
    ensures a.Spelled(Edge(e, read)) == a.Spelled(Edge(e, from)) + buf[..read - from]
    ensures read < |edges[e].prefix| && read - from < |buf| ==> buf[read - from] != edges[e].prefix[read]
  {
    hide Arena.Inv;
    ghost var n: nat :| a.Owns(n, e);
    a.EdgeFacts(n, e);
    var prefix := edges[e].prefix;
    read := from;
    while read < |prefix| && read - from < |buf| && buf[read - from] == prefix[read]
      invariant from <= read <= |prefix| && read - from <= |buf|
      invariant prefix[from..read] == buf[..read - from]
    {
      assert prefix[from..read + 1] == prefix[from..read] + [prefix[read]];
      read := read + 1;
    }
    assert prefix[..read] == prefix[..from] + prefix[from..read];
  }

  /** Follow an edge as far as the input goes with it: off the edge, or to the node at its end. */
  method AlongEdge<V>(edges: seq<REdge>, ghost a: Arena<V>, ghost from: RLookup, input: bytes, parsed: nat, at: RLookup)
      returns (to: RLookup, next: nat, off: bool)
    requires a.Inv() && a.edges == edges && a.Position(from) && at.Edge? && a.Position(at)
    requires parsed <= |input| && a.Leads(from, input, parsed, at)
    ensures parsed <= next <= |input| && a.Position(to) && a.Leads(from, input, next, to)
    ensures off ==> a.Answers(from, input, to, if next < |input| then Differ(next) else More)
    ensures !off ==> to.Node?
  {
    hide Arena.Inv, Arena.Spelled, Arena.Leads;
    var read := FollowEdge(edges, a, at.edge, at.read, input[parsed..]);
    to, next := Edge(at.edge, read), parsed + (read - at.read);
    a.LeadsOn(from, input, parsed, at, read - at.read, to);
    off := read < |edges[at.edge].prefix|;
    if off {
      if next < |input| {
        a.OffEdge(at.edge, read, input[next]);
        a.Blocked(from, input, next, to);
      }
      return;
    }
    a.EdgeEnd(at.edge);
    a.LeadsOn(from, input, next, to, 0, Node(edges[at.edge].node));
    to := Node(edges[at.edge].node);
  }

  /** `lookup`: walk from a position along the input. */
  method Walk<V>(nodes: seq<RNode<V>>, edges: seq<REdge>, ghost a: Arena<V>, from: RLookup, input: bytes)
      returns (at: RLookup, r: RMatch)
    requires a.Inv() && a.nodes == nodes && a.edges == edges && a.Position(from)
    ensures a.Answers(from, input, at, r)
  {
    at := from;
    var parsed := 0;
    assert a.Leads(from, input, 0, from) by { assert input[..0] == []; }
    hide Arena.Inv, Arena.Spelled, Arena.Leads;
    while true
      invariant parsed <= |input| && a.Position(at) && a.Leads(from, input, parsed, at)
      decreases |input| - parsed, at.Edge?
    {
      if at.Edge? {
        var off;
        at, parsed, off := AlongEdge(edges, a, from, input, parsed, at);
        if off {
          return at, if parsed < |input| then Differ(parsed) else More;
        }
      } else {
        a.NodeSpelled(at.node);
        if nodes[at.node].Leaf? {
          return at, Match(parsed);
        }
        if parsed == |input| {
          return at, More;
        }
        var found, e := FindEdge(nodes, edges, a, at.node, input[parsed]);
        if !found {
          a.Blocked(from, input, parsed, at);
          return at, Differ(parsed);
        }
        assert input[parsed..][..1] == [input[parsed]];
        a.LeadsOn(from, input, parsed, at, 1, Edge(e, 1));
        parsed := parsed + 1;
        at := Edge(e, 1);
      }
    }
  }

  class RTree<V> {
    var nodes: seq<RNode<V>>
    var nodesLen: nat
    var edges: seq<REdge>
    var edgesLen: nat
    const branching: nat
    ghost var path: seq<bytes>
    ghost var tokens: map<bytes, V>

    ghost function View(): Arena<V>
      reads this
    {
      Arena(nodes, edges, edgesLen, branching, path, tokens)
    }

    ghost predicate Valid()
      reads this
    {
      nodesLen == |path| && if nodesLen == 0 then tokens == map[] && edgesLen == 0 else View().Inv()
    }

    constructor (n: nat, e: nat, b: nat)
      ensures Valid() && tokens == map[] && |nodes| == n && |edges| == e && branching == b
      ensures nodesLen == 0 && edgesLen == 0
    {
      nodes := seq(n, _ => Branch(0, 0));
      edges := seq(e, _ => REdge([], 0));
      branching := b;
      nodesLen, edgesLen, path, tokens := 0, 0, [], map[];
    }

    method Lookup(from: RLookup, input: bytes) returns (at: RLookup, r: RMatch)
      requires Valid() && nodesLen > 0 && View().Position(from)
      ensures View().Answers(from, input, at, r)
    {
      at, r := Walk(nodes, edges, View(), from, input);
    }

    /** `get_value`: the value of the token that was matched. */
    method GetValue(at: RLookup) returns (v: V)
      requires Valid() && nodesLen > 0 && View().Position(at) && at.Node? && nodes[at.node].Leaf?
      ensures View().Spelled(at) in tokens && v == tokens[View().Spelled(at)]
    {
      View().NodeFacts(at.node);
      v := nodes[at.node].value;
    }

    ghost predicate Clash(token: bytes)
      reads this
    {
      exists t :: t in tokens && (t <= token || token <= t)
    }

    /** The middle of `insert`: divide an edge where the token leaves it. */
    method Split(e: nat, read: nat, token: bytes, idx: nat) returns (ok: bool)
      requires Valid() && nodesLen > 0 && branching > 0 && View().Leaves(token, idx, Edge(e, read))
      modifies this
      ensures |nodes| == old(|nodes|) && |edges| == old(|edges|)
      ensures ok == old(nodesLen < |nodes| && edgesLen < |edges|)
      ensures ok ==> Valid() && nodesLen > 0 && tokens == old(tokens) && View().Leaves(token, idx, Node(old(nodesLen)))
      ensures ok ==> nodesLen == old(nodesLen) + 1 && edgesLen == old(edgesLen) + branching
      ensures ok ==> nodes[old(nodesLen)] == Branch(old(edgesLen), 1)
    {
      hide Arena.Inv, Arena.Leaves, Arena.Spelled;
      ghost var a := View();
      View().LeafReady(token, idx, Edge(e, read));
      if nodesLen == |nodes| || edgesLen >= |edges| { return false; }
      a.DivideReady(e, read, token, idx);
      var REdge(prefix, child) := edges[e];
      edges := edges[edgesLen := REdge(prefix[read..], child)][e := REdge(prefix[..read], nodesLen)];
      nodes := nodes[nodesLen := Branch(edgesLen, 1)];
      nodesLen, edgesLen, path := nodesLen + 1, edgesLen + branching, path + [token[..idx]];
      assert View() == a.Divide(e, read, token[..idx]);
      ok := true;
    }

    /** The end of `insert`: a new edge from branch `n` to a new leaf. */
    method Append(n: nat, token: bytes, idx: nat, value: V) returns (ok: bool)
      requires Valid() && nodesLen > 0 && View().Leaves(token, idx, Node(n))
      modifies this
      ensures ok ==> Valid() && nodesLen > 0 && tokens == old(tokens)[token := value] && !old(Clash(token))
      ensures ok ==> nodesLen == old(nodesLen) + 1 && edgesLen == old(edgesLen)
      ensures |nodes| == old(|nodes|) && |edges| == old(|edges|)
      ensures ok || old(nodesLen == |nodes| || nodes[n].len == branching || nodes[n].edge + nodes[n].len >= |edges|)
    {
      hide Arena.Inv, Arena.Leaves, Arena.Spelled;
      ghost var a := View();
      a.LeafReady(token, idx, Node(n));
      var slot := nodes[n].edge + nodes[n].len;
      if nodesLen == |nodes| || nodes[n].len == branching || slot >= |edges| { return false; }
      a.AddLeafInv(n, token, idx, value);
      a.LeavesFacts(token, idx, Node(n), value);
      edges := edges[slot := REdge(token[idx..], nodesLen)];
      nodes := nodes[nodesLen := Leaf(value)][n := Branch(nodes[n].edge, nodes[n].len + 1)];
      nodesLen, path, tokens := nodesLen + 1, path + [token], tokens[token := value];
      assert View() == a.AddLeaf(n, token, idx, value);
      ok := true;
    }

    /** An array is full, or the branch at which the token leaves the tree. */
    ghost predicate Cramped(token: bytes)
      reads this
    {
      || branching < 2 || Crowded(tokens, token)
      || |nodes| < nodesLen + (if AtRoot(token) then 1 else 2)
      || |edges| < edgesLen + (if AtRoot(token) then 0 else branching)
    }

    /** No older token starts with the same byte: only a leaf and an edge at the root are added. */
    ghost predicate AtRoot(token: bytes)
      reads this
    {
      token != [] && tokens != map[] && forall t | t in tokens :: !(token[..1] <= t)
    }

    /** `insert`. The result says whether it returned; otherwise it panicked, because the token
        clashes with an older one or because there is no room. */
    method Insert(token: bytes, value: V) returns (ok: bool)
      requires Valid() && token != [] && branching > 0
      modifies this
      ensures ok ==> Valid() && nodesLen > 0 && tokens == old(tokens)[token := value] && !old(Clash(token))
      ensures !ok ==> old(Clash(token)) || old(Cramped(token))
      ensures |nodes| == old(|nodes|) && |edges| == old(|edges|)
      ensures ok ==> nodesLen <= old(nodesLen) + 2 && edgesLen <= old(edgesLen) + branching
      ensures ok && old(AtRoot(token)) ==> nodesLen == old(nodesLen) + 1 && edgesLen == old(edgesLen)
    {
      if nodesLen == 0 {
        if |nodes| < 2 || |edges| < 1 { return false; }
        edges := edges[0 := REdge(token, 1)];
        edgesLen := branching;
        nodes := nodes[0 := Branch(0, 1)][1 := Leaf(value)];
        nodesLen, path, tokens := 2, [[], token], map[token := value];
        FirstToken(View(), token, value);
        return true;
      }
      var at, r := Lookup(Node(0), token);
      if !r.Differ? {
        View().NotDiffer(token, at, r);
        return false;
      }
      View().DifferLeaves(token, r.n, at);
      View().LeafReady(token, r.n, at);
      View().RootLeaves(token, r.n, at);
      if at.Node? && nodes[at.node].len == branching >= 2 { View().FullBranch(at.node, token, r.n); }
      hide Arena.Inv, Arena.Leaves, Arena.Spelled, Crowded;
      if at.Edge? {
        var n := nodesLen;
        ok := Split(at.edge, at.read, token, r.n);
        if !ok { return; }
        at := Node(n);
      }
      ok := Append(at.node, token, r.n, value);
    }
  }
}
