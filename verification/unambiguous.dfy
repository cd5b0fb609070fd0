/** A byte string has at most one derivation. */
module Unambiguous {
  import opened Wire
  import opened Grammar
  import opened Choice
  import opened Machine

  lemma CancelPrefix(a: bytes, x: bytes, b: bytes, y: bytes)
    requires a + x == b + y && |a| == |b|
    ensures a == b && x == y
  {
    assert (a + x)[..|a|] == a && (b + y)[..|b|] == b;
    assert (a + x)[|a|..] == x && (b + y)[|b|..] == y;
  }

  lemma CancelToken(o: Options, a: bytes, x: bytes, b: bytes, y: bytes)
    requires a in Alternatives<bytes>(o) && b in Alternatives<bytes>(o) && a + x == b + y
    ensures a == b && x == y
  {
    AlternativesArePrefixFree<bytes>(o);
    hide Alternatives;
    assert a <= a + x && b <= a + x;
    PrefixesOfOne(a, b, a + x);
    CancelPrefix(a, x, b, y);
  }

  lemma CancelString(a: Blob, x: bytes, b: Blob, y: bytes)
    requires a.Ok() && b.Ok() && LE64(a.len) + (a.raw + x) == LE64(b.len) + (b.raw + y)
    ensures a == b && x == y
  {
    hide LE64, CalcAligned;
    CancelPrefix(LE64(a.len), a.raw + x, LE64(b.len), b.raw + y);
    Word64(a.len, LE64(a.len));
    Word64(b.len, LE64(b.len));
    CancelPrefix(a.raw, x, b.raw, y);
  }

  function Kind(n: Node<Blob>): bytes {
    match n
    case Regular(x, _) => TokRegular(x)
    case Symlink(_) => TokSym()
    case Directory(_) => TokDir()
  }

  lemma {:induction false} BodyUnique(m: Node<Blob>, j: bytes, n: Node<Blob>, k: bytes)
    requires WellFormed(m, false) && WellFormed(n, false) && Body(m, j) == Body(n, k)
    ensures m == n && j == k
    decreases m
  {
    hide TokPar, TokDir, TokSym, TokFile, TokFileE, LE64, Alternatives;
    AlternativeValues<bytes>();
    var x, y := Body(m, j)[|Kind(m)|..], Body(n, k)[|Kind(n)|..];
    assert Body(m, j) == Kind(m) + x && Body(n, k) == Kind(n) + y;
    CancelToken(NodeKinds, Kind(m), x, Kind(n), y);
    match m
    case Regular(b, c) =>
      CancelString(c, TokPar() + j, n.contents, TokPar() + k);
      CancelPrefix(TokPar(), j, TokPar(), k);
    case Symlink(t) =>
      CancelString(t, TokPar() + j, n.target, TokPar() + k);
      CancelPrefix(TokPar(), j, TokPar(), k);
    case Directory(es) =>
      ItemsUnique(es, j, n.entries, k);
  }

  lemma {:induction false} ItemsUnique(d: Entries<Blob>, j: bytes, e: Entries<Blob>, k: bytes)
    requires WellFormedEntries(d, false) && WellFormedEntries(e, false)
    requires Items(d, TokPar() + j) == Items(e, TokPar() + k)
    ensures d == e && j == k
    decreases d
  {
    hide TokPar, TokEntry, TokNode, LE64, Alternatives, Body;
    AlternativeValues<bytes>();
    var a, b := if d.Nil? then TokPar() else TokEntry(), if e.Nil? then TokPar() else TokEntry();
    var x, y := Items(d, TokPar() + j)[|a|..], Items(e, TokPar() + k)[|b|..];
    assert Items(d, TokPar() + j) == a + x && Items(e, TokPar() + k) == b + y;
    CancelToken(DirEntries, a, x, b, y);
    if d.Entry? {
      var x', y' := TokPar() + Items(d.rest, TokPar() + j), TokPar() + Items(e.rest, TokPar() + k);
      CancelString(d.name, TokNode() + Body(d.node, x'), e.name, TokNode() + Body(e.node, y'));
      CancelPrefix(TokNode(), Body(d.node, x'), TokNode(), Body(e.node, y'));
      BodyUnique(d.node, x', e.node, y');
      CancelPrefix(TokPar(), Items(d.rest, TokPar() + j), TokPar(), Items(e.rest, TokPar() + k));
      ItemsUnique(d.rest, j, e.rest, k);
    }
  }

  /** One byte string, one derivation. */
  lemma DerivationUnique(m: Node<Blob>, n: Node<Blob>)
    requires WellFormed(m, false) && WellFormed(n, false) && PrintRoot(m) == PrintRoot(n)
    ensures m == n
  {
    hide PrintRoot, Body, TokRoot;
    PrintRootIsBody(m, []);
    PrintRootIsBody(n, []);
    CancelPrefix(TokRoot(), Body(m, []), TokRoot(), Body(n, []));
    BodyUnique(m, [], n, []);
  }

  /** Different trees have different encodings. */
  lemma EncodeInjective(s: Node<bytes>, t: Node<bytes>)
    requires Encodable(s) && Encodable(t) && Encode(s) == Encode(t)
    ensures s == t
  {
    hide PrintRoot;
    Weaken(Concrete(s));
    Weaken(Concrete(t));
    DerivationUnique(Concrete(s), Concrete(t));
  }

  /** The 64-bit alignment wraps: a file that declares 2^64 - 1 bytes of contents and has none
      is derived with the code's arithmetic, and is no proper NAR. */
  lemma WrappedLength(n: Node<Blob>)
    ensures var w: Node<Blob> := Regular(false, Blob(0xFFFF_FFFF_FFFF_FFFF, []));
      WellFormed(w, false) && !WellFormed(w, true) &&
      (WellFormed(n, true) ==> PrintRoot(n) != PrintRoot(w))
  {
    hide PrintRoot;
    var w: Node<Blob> := Regular(false, Blob(0xFFFF_FFFF_FFFF_FFFF, []));
    if WellFormed(n, true) && PrintRoot(n) == PrintRoot(w) {
      Weaken(n);
      DerivationUnique(n, w);
    }
  }

  /** What is derived is a proper NAR exactly if no declared length of it wraps. */
  lemma ProperIff(n: Node<Blob>)
    requires WellFormed(n, false)
    ensures (exists m :: WellFormed(m, true) && PrintRoot(m) == PrintRoot(n)) <==> WellFormed(n, true)
  {
    hide PrintRoot, WellFormed;
    forall m | WellFormed(m, true) && PrintRoot(m) == PrintRoot(n)
      ensures m == n
    {
      Weaken(m);
      DerivationUnique(m, n);
    }
  }
}
