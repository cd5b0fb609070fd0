/** Byte strings and the wire conventions of `harmonia_utils_io::wire`: 64-bit
    little-endian words and strings padded with zeros to a multiple of eight. */
module Wire {

  type byte = b: int | 0 <= b < 256
  type bytes = seq<byte>

  const U64: nat := 0x1_0000_0000_0000_0000
  type u64 = n: int | 0 <= n < 0x1_0000_0000_0000_0000

  /** Lengths whose aligned form still fits in 64 bits. */
  const MAX_LEN: nat := 0xFFFF_FFFF_FFFF_FFF8

  function Min(a: int, b: int): int { if a <= b then a else b }

  function Zeros(n: nat): (z: bytes)
    ensures |z| == n && forall i :: 0 <= i < n ==> z[i] == 0
  {
    seq(n, _ => 0)
  }

  /** `wire::calc_aligned`: a wrapping addition, then the low three bits cleared. */
  function CalcAligned(len: u64): (a: u64)
    ensures a % 8 == 0
    ensures len <= MAX_LEN ==> len <= a < len + 8
    ensures len > MAX_LEN ==> a == 0
  {
    (len + 7) % U64 / 8 * 8
  }

  /** `wire::calc_padding`: a wrapping subtraction. */
  function CalcPadding(len: u64): (p: u64)
    ensures p < 8 && (len <= MAX_LEN ==> len + p == CalcAligned(len))
  {
    (CalcAligned(len) - len) % U64
  }

  /** The room that a string takes up with its padding, without the limits of a word. */
  function Padded(len: nat): (a: nat)
    ensures a % 8 == 0 && len <= a < len + 8
  {
    len / 8 * 8 + if len % 8 == 0 then 0 else 8
  }

  // ---------- little-endian words ----------

  function LE(n: nat, k: nat): (s: bytes)
    ensures |s| == k
  {
    if k == 0 then [] else [n % 256] + LE(n / 256, k - 1)
  }

  function FromLE(s: bytes): nat {
    if s == [] then 0 else s[0] + 256 * FromLE(s[1..])
  }

  function Pow256(k: nat): nat { if k == 0 then 1 else 256 * Pow256(k - 1) }

  lemma {:induction false} FromLEOfLE(n: nat, k: nat)
    requires n < Pow256(k)
    ensures FromLE(LE(n, k)) == n
  {
    if k > 0 {
      FromLEOfLE(n / 256, k - 1);
      assert LE(n, k)[1..] == LE(n / 256, k - 1);
    }
  }

  lemma {:induction false} LEOfFromLE(s: bytes)
    ensures FromLE(s) < Pow256(|s|)
    ensures LE(FromLE(s), |s|) == s
  {
    if s != [] {
      LEOfFromLE(s[1..]);
      assert s == [s[0]] + s[1..];
    }
  }

  lemma Pow256Of8()
    ensures Pow256(8) == U64
  {
    assert Pow256(4) == 256 * (256 * (256 * (256 * Pow256(0))));
  }

  function LE64(n: u64): (s: bytes)
    ensures |s| == 8
  {
    LE(n, 8)
  }

  function FromLE64(s: bytes): (n: u64)
    requires |s| == 8
  {
    LEOfFromLE(s); Pow256Of8();
    FromLE(s)
  }

  /** The order of the bytes: the first is the least significant. */
  lemma LittleEndian(s: bytes)
    requires |s| == 8
    ensures FromLE64(s) ==
      s[0] as int + s[1] as int * 0x100 + s[2] as int * 0x1_0000 + s[3] as int * 0x100_0000 +
      s[4] as int * 0x1_0000_0000 + s[5] as int * 0x100_0000_0000 + s[6] as int * 0x1_0000_0000_0000 +
      s[7] as int * 0x100_0000_0000_0000
  {
    FourBytes(s);
    FourBytes(s[4..]);
    assert s[4..][4..] == [];
  }

  lemma FourBytes(s: bytes)
    requires |s| >= 4
    ensures FromLE(s) ==
      s[0] as int + s[1] as int * 0x100 + s[2] as int * 0x1_0000 + s[3] as int * 0x100_0000 +
      FromLE(s[4..]) * 0x1_0000_0000
  {
    assert s[1..][1..] == s[2..] && s[2..][1..] == s[3..] && s[3..][1..] == s[4..];
  }

  /** The two directions of the 64-bit codec. */
  lemma Word64(n: u64, s: bytes)
    requires |s| == 8
    ensures FromLE64(LE64(n)) == n
    ensures LE64(FromLE64(s)) == s
  {
    Pow256Of8();
    FromLEOfLE(n, 8);
    LEOfFromLE(s);
  }
}
