/** A choice between prefix-free tokens: the plain map that the radix tree refines. */
module Choice {
  import opened Wire

  ghost predicate PrefixFree<V>(m: map<bytes, V>) {
    forall s, t :: s in m && t in m && s <= t ==> s == t
  }

  /** `s` can still grow into a token. */
  ghost predicate Open<V>(m: map<bytes, V>, s: bytes) {
    exists t :: t in m && s < t
  }

  datatype Verdict = Matched(token: bytes) | NeedsMore | Mismatch

  /** What the bytes seen so far say about the choice. */
  ghost function Look<V>(m: map<bytes, V>, s: bytes): (v: Verdict)
    ensures v.Matched? ==> v.token in m && v.token <= s
    ensures v.NeedsMore? ==> Open(m, s)
  {
    if exists t :: t in m && t <= s then
      var t :| t in m && t <= s; Matched(t)
    else if Open(m, s) then NeedsMore
    else Mismatch
  }

  lemma PrefixesOfOne(s: bytes, t: bytes, u: bytes)
    requires s <= u && t <= u
    ensures s <= t || t <= s
  {
    if |s| <= |t| {
      assert s == t[..|s|] by { assert u[..|t|][..|s|] == u[..|s|]; }
    } else {
      assert t == s[..|t|] by { assert u[..|s|][..|t|] == u[..|t|]; }
    }
  }

  /** A token in front decides the choice. */
  lemma LookMatched<V>(m: map<bytes, V>, t: bytes, s: bytes)
    requires PrefixFree(m) && t in m && t <= s
    ensures Look(m, s) == Matched(t)
  {
    PrefixesOfOne(Look(m, s).token, t, s);
  }

  /** Once open, the choice needs more than what it has. */
  lemma LookOpen<V>(m: map<bytes, V>, p: bytes, s: bytes)
    requires PrefixFree(m) && Open(m, p) && p <= s
    ensures Look(m, s).Matched? ==> p < Look(m, s).token
    ensures p == s ==> Look(m, s) == NeedsMore
  {
    if Look(m, s).Matched? {
      var t := Look(m, s).token;
      PrefixesOfOne(p, t, s);
      var u :| u in m && p < u;
      assert t <= p ==> t <= u;
    }
  }

  /** More bytes do not change a verdict, unless it was a request for more bytes. */
  lemma LookStable<V>(m: map<bytes, V>, s: bytes, b: bytes)
    requires PrefixFree(m)
    ensures !Look(m, s).NeedsMore? ==> Look(m, s + b) == Look(m, s)
  {
    var v := Look(m, s);
    if v.Matched? {
      assert v.token <= s + b;
      LookMatched(m, v.token, s + b);
    } else if v.Mismatch? {
      forall t | t in m
        ensures !(t <= s + b) && !(s + b < t)
      {
        if t <= s + b { PrefixesOfOne(s, t, s + b); }
        assert s + b < t ==> s < t;
      }
    }
  }

  /** `z[..k]` is the longest common prefix of `z` with the tokens, and not one of them. */
  ghost predicate Differs<V>(m: map<bytes, V>, z: bytes, k: nat)
    requires k < |z|
  {
    Open(m, z[..k]) && forall t :: t in m ==> !(z[..k + 1] <= t)
  }

  lemma LookDiffers<V>(m: map<bytes, V>, z: bytes, k: nat)
    requires PrefixFree(m) && k < |z| && Differs(m, z, k)
    ensures Look(m, z) == Mismatch
  {
    var p, q := z[..k], z[..k + 1];
    assert q <= z && p == q[..k];
    var u :| u in m && p < u;
    forall t | t in m
      ensures !(t <= z) && !(z < t)
    {
      assert z < t ==> q <= t;
      if t <= z { PrefixesOfOne(t, q, z); ShorterPrefix(t, q); }
      assert t <= p ==> t <= u;
    }
  }

  lemma ShorterPrefix(s: bytes, t: bytes)
    requires t != []
    ensures s <= t ==> s == t || s <= t[..|t| - 1]
  {}

  lemma SameDepth<V>(m: map<bytes, V>, z: bytes, i: nat, j: nat)
    requires i < |z| && j < |z| && Differs(m, z, i) && Differs(m, z, j)
    ensures i == j
  {
    var p, p', q, q' := z[..i], z[..i + 1], z[..j], z[..j + 1];
    var t :| t in m && p < t;
    var u :| u in m && q < u;
    assert i < j ==> p' <= q;
    assert j < i ==> q' <= p;
  }

  /** A verdict depends on the tokens only, not on their values. */
  lemma LookSame<V, W>(m: map<bytes, V>, n: map<bytes, W>, s: bytes)
    requires PrefixFree(m) && m.Keys == n.Keys
    ensures PrefixFree(n) && Look(m, s) == Look(n, s)
  {
    var v := Look(m, s);
    assert forall t :: t in m <==> t in n;
    if v.Matched? { LookMatched(n, v.token, s); }
  }
}
