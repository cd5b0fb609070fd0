/** The case hack: names that collide on a case-insensitive file system get a suffix when they
    are restored, and lose it when they are dumped. */
module CaseHack {
  import opened Wire
  import opened Grammar

  type Name = bytes

  const HACK: string := "~nix~case~hack~"

  /** `CASE_HACK_SUFFIX`. */
  function Suffix(): (s: bytes)
    ensures |s| == 15
  {
    Ascii(HACK)
  }

  /** A decimal number. */
  function Decimal(n: nat): (d: bytes)
    ensures |d| > 0 && forall i | 0 <= i < |d| :: '0' as int <= d[i] <= '9' as int
  {
    if n < 10 then ['0' as int + n] else Decimal(n / 10) + ['0' as int + n % 10]
  }

  /** The bytes of the suffix. */
  lemma SuffixBytes()
    ensures Suffix() == [126, 110, 105, 120, 126, 99, 97, 115, 101, 126, 104, 97, 99, 107, 126]
  {}

  function Pow10(k: nat): nat { if k == 0 then 1 else 10 * Pow10(k - 1) }

  /** The digits, each with the power of ten that belongs to its place. */
  function Weighted(d: bytes): int {
    if d == [] then 0 else (d[0] - '0' as int) * Pow10(|d| - 1) + Weighted(d[1..])
  }

  lemma {:induction false} WeightedAppend(d: bytes, x: byte)
    ensures Weighted(d + [x]) == 10 * Weighted(d) + x - '0' as int
  {
    if d == [] {
      assert ([] + [x])[1..] == [];
    } else {
      assert (d + [x])[1..] == d[1..] + [x];
      WeightedAppend(d[1..], x);
      assert Pow10(|d|) == 10 * Pow10(|d| - 1);
    }
  }

  /** A decimal number says what it stands for, without zeros in front. */
  lemma {:induction false} DecimalIs(n: nat)
    ensures Weighted(Decimal(n)) == n && (|Decimal(n)| > 1 ==> Decimal(n)[0] != '0' as int)
  {
    if n >= 10 {
      DecimalIs(n / 10);
      WeightedAppend(Decimal(n / 10), '0' as int + n % 10);
      DecimalFirst(n / 10);
    } else {
      assert Decimal(n)[1..] == [];
    }
  }

  lemma {:induction false} DecimalFirst(n: nat)
    requires n > 0
    ensures Decimal(n)[0] != '0' as int
  {
    if n >= 10 { DecimalFirst(n / 10); }
  }

  /** The marker of the `n`th collision. */
  function Marker(n: nat): bytes { Suffix() + Decimal(n) }

  /** The suffix is in `s` at `i`. */
  predicate At(s: bytes, i: nat) { i + 15 <= |s| && s[i..i + 15] == Suffix() }

  ghost predicate Contains(s: bytes) { exists i: nat :: At(s, i) }

  /** `rfind`, looking downwards from `from`. */
  function RFind(s: bytes, from: nat): (r: int)
    ensures -1 <= r <= from && (r >= 0 ==> At(s, r))
    ensures forall i: nat | r < i <= from :: !At(s, i)
  {
    if At(s, from) then from else if from == 0 then -1 else RFind(s, from - 1)
  }

  /** `remove_case_hack`, and `remove_case_hack_osstr(name).unwrap_or(name)`. */
  function Strip(name: Name): (r: Name)
    ensures r <= name
  {
    var p := RFind(name, |name|);
    if p >= 0 then name[..p] else name
  }

  lemma StripClean(name: Name)
    ensures Strip(name) == name <==> !Contains(name)
  {
    hide At;
    if Contains(name) {
      var i: nat :| At(name, i);
      assert i <= |name| by { AtInside(name, i); }
      assert RFind(name, |name|) >= 0;
      AtInside(name, RFind(name, |name|));
    }
  }

  lemma AtInside(s: bytes, i: nat)
    requires At(s, i)
    ensures i + 15 <= |s|
  {}

  /** No second occurrence of the suffix starts inside a marker. */
  lemma MarkerOnce(name: Name, n: nat, i: nat)
    requires |name| < i
    ensures !At(name + Marker(n), i)
  {
    var s := name + Marker(n);
    if i + 15 <= |s| {
      var w, d := s[i..i + 15], i - |name|;
      MarkerBytes(n, d);
      assert w[0] == Marker(n)[d] && w[1] == Marker(n)[d + 1];
      assert Suffix()[0] == '~' as int && Suffix()[1] == 'n' as int;
    }
  }

  /** Only the first `~` of a marker is followed by an `n`. */
  lemma MarkerBytes(n: nat, d: nat)
    requires 0 < d < |Marker(n)| - 1
    ensures Marker(n)[d] != '~' as int || Marker(n)[d + 1] != 'n' as int
  {
    var x := Decimal(n);
    if d >= 15 {
      assert Marker(n)[d] == x[d - 15];
    } else if d == 14 {
      assert Marker(n)[15] == x[0];
    } else {
      assert Marker(n)[d] == HACK[d] as int % 128 && Marker(n)[d + 1] == HACK[d + 1] as int % 128;
    }
  }

  /** A marked name loses exactly its marker. */
  lemma StripMarked(name: Name, n: nat)
    ensures Strip(name + Marker(n)) == name && Contains(name + Marker(n))
  {
    var s := name + Marker(n);
    assert s[|name|..|name| + 15] == Suffix();
    assert At(s, |name|);
    forall i: nat | |name| < i <= |s|
      ensures !At(s, i)
    {
      MarkerOnce(name, n, i);
    }
    hide At;
    assert RFind(s, |s|) == |name|;
  }

  function Number(d: bytes): int {
    if d == [] then 0 else 10 * Number(d[..|d| - 1]) + d[|d| - 1] - '0' as int
  }

  lemma {:induction false} NumberOfDecimal(n: nat)
    ensures Number(Decimal(n)) == n
  {
    if n < 10 {
      assert Decimal(n)[..0] == [];
    } else {
      NumberOfDecimal(n / 10);
      assert Decimal(n)[..|Decimal(n)| - 1] == Decimal(n / 10);
    }
  }

  /** A marked name tells its parts. */
  lemma MarkerInjective(a: Name, m: nat, b: Name, n: nat)
    requires a + Marker(m) == b + Marker(n)
    ensures a == b && m == n
  {
    hide Marker;
    StripMarked(a, m);
    StripMarked(b, n);
    assert (a + Marker(m))[|a|..] == Marker(m) && (b + Marker(n))[|b|..] == Marker(n);
    SameMarker(m, n);
  }

  lemma SameMarker(m: nat, n: nat)
    requires Marker(m) == Marker(n)
    ensures m == n
  {
    NumberOfDecimal(m);
    NumberOfDecimal(n);
    assert Marker(m)[15..] == Decimal(m) && Marker(n)[15..] == Decimal(n);
  }

  // ---------- renaming ----------

  /** The law of `to_lowercase` that the hack relies on: a marker, which has no upper-case
      letters, stays as it is. */
  ghost predicate KeepsMarkers(lower: Name -> bytes) {
    forall a: Name, n: nat :: lower(a + Marker(n)) == lower(a) + Marker(n)
  }

  /** `Entries::hack_name`: the new name, and the counters. */
  function HackName(lower: Name -> bytes, counts: map<bytes, nat>, name: Name): (Name, map<bytes, nat>) {
    var l := lower(name);
    if l in counts then (name + Marker(counts[l] + 1), counts[l := counts[l] + 1]) else (name, counts[l := 0])
  }

  /** `hack_name` on the names of a directory, one after the other. */
  function HackNames(lower: Name -> bytes, counts: map<bytes, nat>, names: seq<Name>): (r: seq<Name>)
    ensures |r| == |names|
    decreases |names|
  {
    if names == [] then []
    else
      var (n, c) := HackName(lower, counts, names[0]);
      [n] + HackNames(lower, c, names[1..])
  }

  /** A name with the marker of its `k`th collision. */
  function Mark(name: Name, k: nat): Name { if k == 0 then name else name + Marker(k) }

  /** How many of the names are `l` in lower case. */
  function Occurs(lower: Name -> bytes, names: seq<Name>, l: bytes): nat {
    if names == [] then 0 else (if lower(names[0]) == l then 1 else 0) + Occurs(lower, names[1..], l)
  }

  /** How many earlier names differ from the `i`th in case only. */
  function Rank(lower: Name -> bytes, names: seq<Name>, i: nat): nat
    requires i < |names|
  {
    Occurs(lower, names[..i], lower(names[i]))
  }

  lemma {:induction false} OccursAppend(lower: Name -> bytes, a: seq<Name>, b: seq<Name>, l: bytes)
    ensures Occurs(lower, a + b, l) == Occurs(lower, a, l) + Occurs(lower, b, l)
  {
    if a == [] {
      assert a + b == b;
    } else {
      OccursAppend(lower, a[1..], b, l);
      assert (a + b)[1..] == a[1..] + b;
    }
  }

  /** A name counts among those up to any later place. */
  lemma RankBelow(lower: Name -> bytes, names: seq<Name>, i: nat, j: nat)
    requires i < j <= |names|
    ensures Rank(lower, names, i) < Occurs(lower, names[..j], lower(names[i]))
  {
    OccursAppend(lower, names[..i], names[i..j], lower(names[i]));
    assert names[..i] + names[i..j] == names[..j];
    assert names[i..j][0] == names[i];
  }

  /** The `k`th of the names that are `l` in lower case. */
  lemma {:induction false} NthOf(lower: Name -> bytes, names: seq<Name>, l: bytes, k: nat) returns (j: nat)
    requires k < Occurs(lower, names, l)
    ensures j < |names| && lower(names[j]) == l && Rank(lower, names, j) == k
    decreases |names|
  {
    var n := |names| - 1;
    var init := names[..n];
    OccursAppend(lower, init, [names[n]], l);
    assert init + [names[n]] == names;
    assert Occurs(lower, [names[n]], l) <= 1;
    if k < Occurs(lower, init, l) {
      j := NthOf(lower, init, l, k);
      assert init[..j] == names[..j];
    } else {
      j := n;
    }
  }

  /** `hack_name` marks each name with the number of earlier names that differ in case only. */
  lemma {:induction false} HackedAt(lower: Name -> bytes, counts: map<bytes, nat>, names: seq<Name>, i: nat)
    requires i < |names|
    ensures var l := lower(names[i]);
      HackNames(lower, counts, names)[i] ==
      Mark(names[i], Rank(lower, names, i) + if l in counts then counts[l] + 1 else 0)
    decreases |names|
  {
    hide Marker;
    if i > 0 {
      HackedAt(lower, HackName(lower, counts, names[0]).1, names[1..], i - 1);
      assert names[..i][1..] == names[1..][..i - 1];
    }
  }

  lemma HackedIs(lower: Name -> bytes, names: seq<Name>, i: nat)
    requires i < |names|
    ensures HackNames(lower, map[], names)[i] == Mark(names[i], Rank(lower, names, i))
  {
    hide Mark, Rank, HackNames;
    HackedAt(lower, map[], names, i);
  }

  // ---------- when the new names are distinct ----------

  /** No two names are the same in lower case. */
  ghost predicate CaseDistinctNames(lower: Name -> bytes, names: seq<Name>) {
    forall i, j | 0 <= i < j < |names| :: lower(names[i]) != lower(names[j])
  }

  /** A name that looks, in lower case, like the `c`th collision of another is harmless if there
      is no such collision. */
  ghost predicate Unclashed(lower: Name -> bytes, names: seq<Name>) {
    forall i, j, c: nat | 0 <= i < |names| && 0 <= j < |names| && c > 0
      && lower(names[i]) == lower(names[j]) + Marker(c) ::
      Occurs(lower, names, lower(names[j])) <= c
  }

  /** Two marked names that are the same in lower case: one is marked, and the other looks so. */
  lemma SameInLower(lower: Name -> bytes, names: seq<Name>, i: nat, j: nat)
    requires KeepsMarkers(lower) && i < |names| && j < |names| && i != j
    requires var h := HackNames(lower, map[], names); lower(h[i]) == lower(h[j])
    ensures (Rank(lower, names, i) == 0) != (Rank(lower, names, j) == 0)
    ensures Rank(lower, names, i) == 0 ==> lower(names[i]) == lower(names[j]) + Marker(Rank(lower, names, j))
  {
    hide Marker, Rank, HackNames;
    HackedIs(lower, names, i);
    HackedIs(lower, names, j);
    var a, b := Rank(lower, names, i), Rank(lower, names, j);
    if a > 0 && b > 0 { MarkerInjective(lower(names[i]), a, lower(names[j]), b); }
    if lower(names[i]) == lower(names[j]) { RanksDiffer(lower, names, i, j); }
  }

  lemma RanksDiffer(lower: Name -> bytes, names: seq<Name>, i: nat, j: nat)
    requires i < |names| && j < |names| && i != j && lower(names[i]) == lower(names[j])
    ensures Rank(lower, names, i) != Rank(lower, names, j)
  {
    if i < j { RankBelow(lower, names, i, j); } else { RankBelow(lower, names, j, i); }
  }

  /** The restored names of a directory are pairwise distinct ignoring case exactly if they do not
      clash with each other's markers. */
  lemma HackedDistinctIff(lower: Name -> bytes, names: seq<Name>)
    requires KeepsMarkers(lower)
    ensures CaseDistinctNames(lower, HackNames(lower, map[], names)) <==> Unclashed(lower, names)
  {
    hide Marker, HackNames, Rank, KeepsMarkers;
    var h := HackNames(lower, map[], names);
    if Unclashed(lower, names) {
      forall i, j | 0 <= i < j < |h|
        ensures lower(h[i]) != lower(h[j])
      {
        if lower(h[i]) == lower(h[j]) {
          SameInLower(lower, names, i, j);
          SameInLower(lower, names, j, i);
          NotLast(lower, names, i);
          NotLast(lower, names, j);
        }
      }
    }
    if CaseDistinctNames(lower, h) {
      forall i, j, c: nat |
        0 <= i < |names| && 0 <= j < |names| && c > 0 && lower(names[i]) == lower(names[j]) + Marker(c)
        ensures Occurs(lower, names, lower(names[j])) <= c
      {
        if Occurs(lower, names, lower(names[j])) > c { Collision(lower, names, i, j, c); }
      }
    }
  }

  lemma NotLast(lower: Name -> bytes, names: seq<Name>, i: nat)
    requires i < |names|
    ensures Rank(lower, names, i) < Occurs(lower, names, lower(names[i]))
  {
    RankBelow(lower, names, i, |names|);
    assert names[..|names|] == names;
  }

  /** A name that looks like a collision that there is. */
  lemma Collision(lower: Name -> bytes, names: seq<Name>, i: nat, j: nat, c: nat)
    requires KeepsMarkers(lower) && i < |names| && j < |names| && c > 0
    requires lower(names[i]) == lower(names[j]) + Marker(c) && Occurs(lower, names, lower(names[j])) > c
    ensures !CaseDistinctNames(lower, HackNames(lower, map[], names))
  {
    hide Marker, HackNames, Rank;
    NotLast(lower, names, i);
    var x := NthOf(lower, names, lower(names[i]), 0);
    var y := NthOf(lower, names, lower(names[j]), c);
    HackedIs(lower, names, x);
    HackedIs(lower, names, y);
    assert x != y;
    var h := HackNames(lower, map[], names);
    assert lower(h[x]) == lower(h[y]);
  }

  /** In particular, if no name contains the suffix in any case. */
  lemma UnmarkedUnclashed(lower: Name -> bytes, names: seq<Name>)
    requires forall k | 0 <= k < |names| :: !Contains(lower(names[k]))
    ensures Unclashed(lower, names)
  {
    hide Marker, Contains;
    forall j, c: nat | 0 <= j < |names|
      ensures Contains(lower(names[j]) + Marker(c))
    {
      StripMarked(lower(names[j]), c);
    }
  }

  /** No name is, letter by letter, what a later collision is going to be called. */
  ghost predicate Unlike(lower: Name -> bytes, names: seq<Name>) {
    forall i, j | 0 <= i < |names| && 0 <= j < |names| && Rank(lower, names, i) == 0 && Rank(lower, names, j) > 0 ::
      names[i] != names[j] + Marker(Rank(lower, names, j))
  }

  ghost predicate AllDifferent(names: seq<Name>) {
    forall i, j | 0 <= i < j < |names| :: names[i] != names[j]
  }

  /** The restored names are pairwise different, letter by letter, exactly then. */
  lemma HackedDifferentIff(lower: Name -> bytes, names: seq<Name>)
    requires AllDifferent(names)
    ensures AllDifferent(HackNames(lower, map[], names)) <==> Unlike(lower, names)
  {
    hide Marker, HackNames, Rank;
    var h := HackNames(lower, map[], names);
    forall i, j | 0 <= i < |names| && 0 <= j < |names| && i != j
      ensures h[i] == h[j] ==>
        var a, b := Rank(lower, names, i), Rank(lower, names, j);
        || (a == 0 && b > 0 && names[i] == names[j] + Marker(b))
        || (b == 0 && a > 0 && names[j] == names[i] + Marker(a))
    {
      HackedIs(lower, names, i);
      HackedIs(lower, names, j);
      var a, b := Rank(lower, names, i), Rank(lower, names, j);
      if h[i] == h[j] && a > 0 && b > 0 { MarkerInjective(names[i], a, names[j], b); }
    }
    if AllDifferent(h) {
      forall i, j | 0 <= i < |names| && 0 <= j < |names| && Rank(lower, names, i) == 0 && Rank(lower, names, j) > 0
        ensures names[i] != names[j] + Marker(Rank(lower, names, j))
      {
        HackedIs(lower, names, i);
        HackedIs(lower, names, j);
        assert h[i] != h[j];
      }
    }
  }

  /** Two different names can get the same new name: one that looks marked keeps its own, and
      another is marked to be like it. */
  lemma MarkedInAdvance(lower: Name -> bytes, a: Name, b: Name)
    requires lower(a) == lower(b) != lower(b + Marker(1))
    ensures var r := HackNames(lower, map[], [b + Marker(1), a, b]); r[0] == r[2]
  {
    hide Marker;
    var x := b + Marker(1);
    var c1 := HackName(lower, map[], x).1;
    var c2 := HackName(lower, c1, a).1;
    assert [x, a, b][1..] == [a, b] && [a, b][1..] == [b];
    assert HackNames(lower, c2, [b])[0] == x;
    assert HackNames(lower, c1, [a, b])[1] == x;
  }

  /** Stripping undoes the renaming of names that do not contain the suffix. */
  lemma StripHacked(lower: Name -> bytes, counts: map<bytes, nat>, name: Name)
    ensures Strip(HackName(lower, counts, name).0) == name <==> lower(name) in counts || !Contains(name)
  {
    hide Marker, Contains, Strip;
    var l := lower(name);
    if l in counts { StripMarked(name, counts[l] + 1); }
    StripClean(name);
  }
}
