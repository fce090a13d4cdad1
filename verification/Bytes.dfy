/** Bytes, fixed-width machine integers and the little-endian encodings every
    signed message of the bridge is built from. */
module Bytes {
  type byte = x: int | 0 <= x < 256
  type u16 = x: int | 0 <= x < 0x1_0000
  type u32 = x: int | 0 <= x < 0x1_0000_0000
  type u64 = x: int | 0 <= x < 0x1_0000_0000_0000_0000
  type i64 = x: int | -0x8000_0000_0000_0000 <= x < 0x8000_0000_0000_0000

  const U64_MAX: u64 := 0xFFFF_FFFF_FFFF_FFFF

  type Hash20 = s: seq<byte> | |s| == 20 witness seq(20, _ => 0)
  type Hash32 = s: seq<byte> | |s| == 32 witness seq(32, _ => 0)

  const ZERO20: Hash20 := [0, 0, 0, 0, 0, 0, 0, 0, 0, 0, 0, 0, 0, 0, 0, 0, 0, 0, 0, 0]
  const ZERO32: Hash32 :=
    [0, 0, 0, 0, 0, 0, 0, 0, 0, 0, 0, 0, 0, 0, 0, 0, 0, 0, 0, 0, 0, 0, 0, 0, 0, 0, 0, 0, 0, 0, 0, 0]

  function Pow256(n: nat): (p: nat)
    ensures p > 0
  {
    if n == 0 then 1 else 256 * Pow256(n - 1)
  }

  lemma Pow256Widths()
    ensures Pow256(1) == 0x100
    ensures Pow256(2) == 0x1_0000
    ensures Pow256(4) == 0x1_0000_0000
    ensures Pow256(8) == 0x1_0000_0000_0000_0000
  {
    assert Pow256(3) == 0x100_0000;
    assert Pow256(5) == 0x100_0000_0000;
    assert Pow256(6) == 0x1_0000_0000_0000;
    assert Pow256(7) == 0x100_0000_0000_0000;
  }

  /** The `n` low-order bytes of `x`, least significant first. */
  function LE(x: nat, n: nat): (s: seq<byte>)
    ensures |s| == n
  {
    if n == 0 then [] else [x % 256] + LE(x / 256, n - 1)
  }

  function FromLE(s: seq<byte>): (x: nat)
    ensures x < Pow256(|s|)
  {
    if s == [] then 0 else s[0] + 256 * FromLE(s[1..])
  }

  lemma {:induction false} DecodeEncode(x: nat, n: nat)
    requires x < Pow256(n)
    ensures FromLE(LE(x, n)) == x
  {
    if n == 0 {
    } else {
      DecodeEncode(x / 256, n - 1);
      assert LE(x, n)[1..] == LE(x / 256, n - 1);
    }
  }

  lemma {:induction false} EncodeDecode(s: seq<byte>)
    ensures LE(FromLE(s), |s|) == s
  {
    if s == [] {
    } else {
      EncodeDecode(s[1..]);
      var rest := FromLE(s[1..]);
      assert FromLE(s) == s[0] + 256 * rest;
      assert FromLE(s) % 256 == s[0] && FromLE(s) / 256 == rest;
      assert s == [s[0]] + s[1..];
    }
  }

  /** Byte `k` of the encoding is the `k`-th digit of the number in base 256. */
  lemma {:induction false} LEByte(x: nat, n: nat, k: nat)
    requires k < n
    ensures LE(x, n)[k] == x / Pow256(k) % 256
  {
    if k > 0 {
      LEByte(x / 256, n - 1, k - 1);
      DivideTwice(x, Pow256(k - 1));
      assert LE(x, n)[k] == LE(x / 256, n - 1)[k - 1];
    }
  }

  lemma DivideTwice(x: nat, p: nat)
    requires p > 0
    ensures x / (256 * p) == x / 256 / p
  {
    var q := x / 256 / p;
    var r := x / 256 - q * p;
    assert x == 256 * (q * p + r) + x % 256;
    assert q * (256 * p) <= x < (q + 1) * (256 * p);
    DivideExactly(x, 256 * p, q);
  }

  lemma DivideExactly(x: nat, d: nat, q: nat)
    requires d > 0 && q * d <= x < (q + 1) * d
    ensures x / d == q
  {
    var y := x / d;
    assert y * d <= x < (y + 1) * d;
    if y < q {
      ScaleUp(y + 1, q, d);
    } else if y > q {
      ScaleUp(q + 1, y, d);
    }
  }

  lemma ScaleUp(a: nat, b: nat, d: nat)
    requires a <= b
    ensures a * d <= b * d
  {
  }

  function LE16(x: u16): (s: seq<byte>) ensures |s| == 2 { LE(x, 2) }

  function LE32(x: u32): (s: seq<byte>) ensures |s| == 4 { LE(x, 4) }

  function LE64(x: u64): (s: seq<byte>) ensures |s| == 8 { LE(x, 8) }

  /** `i64::to_le_bytes`: the two's complement bit pattern. */
  function LEi64(x: i64): (s: seq<byte>) ensures |s| == 8 { LE(if x < 0 then x + 0x1_0000_0000_0000_0000 else x, 8) }

  function ReadI64(s: seq<byte>): (x: i64)
    requires |s| == 8
  {
    Pow256Widths();
    var v := FromLE(s);
    if v < 0x8000_0000_0000_0000 then v else v - 0x1_0000_0000_0000_0000
  }

  /** A Rust `as u32` cast from a signed 64-bit integer. */
  function TruncateU32(x: int): (r: u32) { x % 0x1_0000_0000 }

  lemma ReadBack16(x: u16)
    ensures FromLE(LE16(x)) == x
  {
    Pow256Widths();
    DecodeEncode(x, 2);
  }

  lemma ReadBack32(x: u32)
    ensures FromLE(LE32(x)) == x
  {
    Pow256Widths();
    DecodeEncode(x, 4);
  }

  lemma ReadBack64(x: u64)
    ensures FromLE(LE64(x)) == x
  {
    Pow256Widths();
    DecodeEncode(x, 8);
  }

  lemma ReadBackI64(x: i64)
    ensures ReadI64(LEi64(x)) == x
  {
    Pow256Widths();
    DecodeEncode(if x < 0 then x + 0x1_0000_0000_0000_0000 else x, 8);
  }
}
