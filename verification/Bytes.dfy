/** Bytes and the big-endian integer encodings used by every on-disk and on-wire format. */
module Bytes {

  type byte = b: int | 0 <= b < 256
  type bytes = seq<byte>

  const U16: nat := 0x1_0000
  const U32: nat := 0x1_0000_0000
  const U64: nat := 0x1_0000_0000_0000_0000
  const I64_MAX: int := 0x7FFF_FFFF_FFFF_FFFF

  function Min(a: int, b: int): int { if a < b then a else b }

  function Max(a: int, b: int): int { if a < b then b else a }

  function Pow256(w: nat): (p: nat)
    ensures p > 0
  {
    if w == 0 then 1 else 256 * Pow256(w - 1)
  }

  /** The low `w` bytes of `n`, most significant first: `(n as uW).to_be_bytes()`. */
  function BE(n: nat, w: nat): (s: bytes)
    ensures |s| == w
  {
    if w == 0 then [] else BE(n / 256, w - 1) + [n % 256]
  }

  function FromBE(s: bytes): nat
  {
    if s == [] then 0 else FromBE(s[..|s| - 1]) * 256 + s[|s| - 1]
  }

  lemma {:induction false} BERoundTrip(n: nat, w: nat)
    requires n < Pow256(w)
    ensures FromBE(BE(n, w)) == n
  {
    if w == 0 {
    } else {
      BERoundTrip(n / 256, w - 1);
      var s := BE(n, w);
      assert s[..|s| - 1] == BE(n / 256, w - 1);
    }
  }

  lemma {:induction false} WidthLimits()
    ensures Pow256(2) == U16 && Pow256(4) == U32 && Pow256(8) == U64
  {
    assert Pow256(1) == 256;
    assert Pow256(2) == 256 * Pow256(1);
    assert Pow256(3) == 256 * Pow256(2);
    assert Pow256(4) == 256 * Pow256(3);
    assert Pow256(5) == 256 * Pow256(4);
    assert Pow256(6) == 256 * Pow256(5);
    assert Pow256(7) == 256 * Pow256(6);
    assert Pow256(8) == 256 * Pow256(7);
  }

  /** Two's complement: the bits of an `i64` read as a `u64`, and back. */
  function I64ToU64(t: int): (n: nat)
    ensures n < U64
    ensures -I64_MAX - 1 <= t <= I64_MAX ==> U64ToI64(n) == t
  {
    if t < 0 then (t + U64) % U64 else t % U64
  }

  function U64ToI64(n: nat): int
  {
    if n <= I64_MAX then n else n - U64
  }

  /** A slice of a slice is a slice. */
  lemma {:induction false} SubSlice(file: bytes, a: nat, b: nat, i: nat, j: nat)
    requires a <= b <= |file| && i <= j <= b - a
    ensures file[a..b][i..j] == file[a + i..a + j]
  {
    var l, r := file[a..b][i..j], file[a + i..a + j];
    assert |l| == |r|;
    assert forall k :: 0 <= k < |l| ==> l[k] == file[a + i + k] == r[k];
  }
}