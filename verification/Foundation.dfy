/** Result types and little-endian byte fields shared by the models. */
module Foundation {

  datatype Option<+T> = None | Some(value: T)

  datatype Result<+T, +E> = Ok(value: T) | Err(error: E)

  type byte = b: int | 0 <= b < 256

  const UINT32_MAX: nat := 0xffff_ffff
  const UINT64_MAX: nat := 0xffff_ffff_ffff_ffff
  const INT64_MAX: nat := 0x7fff_ffff_ffff_ffff
  const INT64_MIN: int := -0x8000_0000_0000_0000

  type u32 = x: nat | x <= UINT32_MAX
  type u64 = x: nat | x <= UINT64_MAX
  type i64 = x: int | INT64_MIN <= x <= INT64_MAX

  function Pow256(n: nat): (p: nat)
    ensures p >= 1
  {
    if n == 0 then 1 else 256 * Pow256(n - 1)
  }

  /** The low n bytes of v, least significant first (append_u32, encode_array). */
  function Le(v: nat, n: nat): (s: seq<byte>)
    ensures |s| == n
  {
    if n == 0 then [] else [v % 256] + Le(v / 256, n - 1)
  }

  function FromLe(s: seq<byte>): (v: nat)
    ensures v < Pow256(|s|)
  {
    if s == [] then 0 else s[0] + 256 * FromLe(s[1..])
  }

  lemma {:induction false} LeRoundTrip(v: nat, n: nat)
    requires v < Pow256(n)
    ensures FromLe(Le(v, n)) == v
  {
    if n > 0 {
      LeRoundTrip(v / 256, n - 1);
      assert Le(v, n)[1..] == Le(v / 256, n - 1);
    }
  }

  lemma Pow256Values()
    ensures Pow256(4) == 0x1_0000_0000
    ensures Pow256(8) == 0x1_0000_0000_0000_0000
  {
    assert Pow256(2) == 65536;
    assert Pow256(4) == 256 * (256 * Pow256(2));
    assert Pow256(6) == 256 * (256 * Pow256(4));
    assert Pow256(8) == 256 * (256 * Pow256(6));
  }

  /** The low n bytes of v, most significant first. */
  function Be(v: nat, n: nat): (s: seq<byte>)
    ensures |s| == n
  {
    if n == 0 then [] else Be(v / 256, n - 1) + [v % 256]
  }

  function FromBe(s: seq<byte>): nat {
    if s == [] then 0 else 256 * FromBe(s[..|s| - 1]) + s[|s| - 1]
  }

  lemma {:induction false} BeRoundTrip(s: seq<byte>)
    ensures Be(FromBe(s), |s|) == s
    decreases |s|
  {
    if s != [] {
      BeRoundTrip(s[..|s| - 1]);
    }
  }

  /** Little-endian means that the first byte weighs least: 04 03 02 01 is 0x01020304. */
  lemma LeWeights(v: nat)
    requires v <= UINT32_MAX
    ensures
      var s := Le(v, 4);
      var a: int, b: int, c: int, d: int := s[0], s[1], s[2], s[3];
      v == a + 0x100 * b + 0x1_0000 * c + 0x100_0000 * d
  {
    var x := v / 256;
    var y := x / 256;
    var z := y / 256;
    assert Le(z, 1) == [z % 256] + Le(z / 256, 0);
    assert Le(y, 2) == [y % 256] + Le(z, 1);
    assert Le(x, 3) == [x % 256] + Le(y, 2);
    assert Le(v, 4) == [v % 256] + Le(x, 3);
  }
}
