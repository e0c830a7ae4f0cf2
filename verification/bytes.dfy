/** Byte-level arithmetic shared by the EDID codec: bounded integer types, byte sums and
    little-endian integer encoding. */
module Bytes {

  /** An unsigned 8-bit value (Rust `u8`). */
  type Byte = x: int | 0 <= x < 0x100

  /** An unsigned 16-bit value (Rust `u16`). */
  type U16 = x: int | 0 <= x < 0x1_0000

  /** An unsigned 32-bit value (Rust `u32`). */
  type U32 = x: int | 0 <= x < 0x1_0000_0000

  /** 256 raised to the power `n`: one more than the largest `n`-byte unsigned value. */
  function Pow256(n: nat): (r: nat)
    ensures r >= 1
  {
    if n == 0 then 1 else 256 * Pow256(n - 1)
  }

  /** The sum of the byte values of `s`, widened so that it never wraps.  The source adds
      127 bytes in a `u32`, which cannot overflow (127 * 255 < 2^32). */
  function Sum(s: seq<Byte>): (r: nat)
    ensures r <= 255 * |s|
  {
    if s == [] then 0 else s[0] + Sum(s[1..])
  }

  lemma {:induction false} SumAppend(a: seq<Byte>, b: seq<Byte>)
    ensures Sum(a + b) == Sum(a) + Sum(b)
  {
    if a == [] {
      assert a + b == b;
    } else {
      assert (a + b)[1..] == a[1..] + b;
      SumAppend(a[1..], b);
    }
  }

  /** Sums over adjacent slices add up. */
  lemma SumSlices(s: seq<Byte>, i: nat, j: nat, k: nat)
    requires i <= j <= k <= |s|
    ensures Sum(s[i..k]) == Sum(s[i..j]) + Sum(s[j..k])
  {
    assert s[i..k] == s[i..j] + s[j..k];
    SumAppend(s[i..j], s[j..k]);
  }

  /** The sum of eight bytes written out term by term. */
  lemma SumOfEight(s: seq<Byte>)
    requires |s| == 8
    ensures Sum(s) == s[0] as int + s[1] + s[2] + s[3] + s[4] + s[5] + s[6] + s[7]
  {
    var u := s;
    assert Sum(u) == u[0] + Sum(u[1..]); u := u[1..];
    assert Sum(u) == u[0] + Sum(u[1..]); u := u[1..];
    assert Sum(u) == u[0] + Sum(u[1..]); u := u[1..];
    assert Sum(u) == u[0] + Sum(u[1..]); u := u[1..];
    assert Sum(u) == u[0] + Sum(u[1..]); u := u[1..];
    assert Sum(u) == u[0] + Sum(u[1..]); u := u[1..];
    assert Sum(u) == u[0] + Sum(u[1..]); u := u[1..];
    assert Sum(u) == u[0] + Sum(u[1..]); u := u[1..];
  }

  /** The unsigned value of `s` read least significant byte first. */
  function FromLittleEndian(s: seq<Byte>): (r: nat)
    ensures r < Pow256(|s|)
  {
    if s == [] then 0 else s[0] + 256 * FromLittleEndian(s[1..])
  }

  /** The `n` bytes of `x`, least significant byte first. */
  function ToLittleEndian(x: nat, n: nat): (r: seq<Byte>)
    requires x < Pow256(n)
    ensures |r| == n
  {
    if n == 0 then [] else [x % 256] + ToLittleEndian(x / 256, n - 1)
  }

  /** Reading back the bytes written for `x` gives `x`. */
  lemma {:induction false} FromToLittleEndian(x: nat, n: nat)
    requires x < Pow256(n)
    ensures FromLittleEndian(ToLittleEndian(x, n)) == x
  {
    if n > 0 {
      var r := ToLittleEndian(x, n);
      assert r[1..] == ToLittleEndian(x / 256, n - 1);
      FromToLittleEndian(x / 256, n - 1);
    }
  }

  /** Writing back the value read from `s` gives `s`. */
  lemma {:induction false} ToFromLittleEndian(s: seq<Byte>)
    ensures ToLittleEndian(FromLittleEndian(s), |s|) == s
  {
    if s != [] {
      var v := FromLittleEndian(s[1..]);
      assert (s[0] + 256 * v) % 256 == s[0];
      assert (s[0] + 256 * v) / 256 == v;
      ToFromLittleEndian(s[1..]);
    }
  }
}
