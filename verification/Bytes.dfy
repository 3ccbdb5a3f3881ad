/** Bytes, the exclusive-or used by the stream ciphers, and big-endian fields
    (internal/byteutil/byteutil.go). */
module Bytes {
  type byte = x: int | 0 <= x < 256

  ghost function Pow2(n: nat): (p: nat) {
    if n == 0 then 1 else 2 * Pow2(n - 1)
  }

  /** Bitwise exclusive-or of the low `n` bits of two numbers. */
  function XorBits(a: nat, b: nat, n: nat): (r: nat)
    ensures r < Pow2(n)
  {
    if n == 0 then 0 else (a + b) % 2 + 2 * XorBits(a / 2, b / 2, n - 1)
  }

  lemma BitCancels(a: nat, b: nat, rest: nat)
    ensures ((a + b) % 2 + 2 * rest + b) % 2 == a % 2
  {
    var k := (a + b) / 2;
    assert (a + b) % 2 + 2 * rest + b == a + 2 * (b + rest - k);
  }

  lemma {:induction false} XorBitsCancels(a: nat, b: nat, n: nat)
    requires a < Pow2(n)
    ensures XorBits(XorBits(a, b, n), b, n) == a
  {
    if n == 0 {
    } else {
      var low, rest := (a + b) % 2, XorBits(a / 2, b / 2, n - 1);
      var x := XorBits(a, b, n);
      assert x == low + 2 * rest && x / 2 == rest;
      BitCancels(a, b, rest);
      assert a / 2 < Pow2(n - 1);
      XorBitsCancels(a / 2, b / 2, n - 1);
    }
  }

  lemma Pow2Of8()
    ensures Pow2(8) == 256
  {
    assert Pow2(4) == 16;
    assert Pow2(8) == 2 * Pow2(7) == 4 * Pow2(6) == 8 * Pow2(5) == 16 * Pow2(4);
  }

  function Xor(a: byte, b: byte): (r: byte) {
    Pow2Of8();
    XorBits(a, b, 8)
  }

  lemma XorCancels(a: byte, b: byte)
    ensures Xor(Xor(a, b), b) == a
  {
    Pow2Of8();
    XorBitsCancels(a, b, 8);
  }

  /** Binary digit k of x. */
  function Bit(x: nat, k: nat): (d: nat) {
    if k == 0 then x % 2 else Bit(x / 2, k - 1)
  }

  lemma {:induction false} XorBitsBit(a: nat, b: nat, n: nat, k: nat)
    requires k < n
    ensures Bit(XorBits(a, b, n), k) == (Bit(a, k) + Bit(b, k)) % 2
  {
    var low, rest := (a + b) % 2, XorBits(a / 2, b / 2, n - 1);
    var x := XorBits(a, b, n);
    assert x == low + 2 * rest && x % 2 == low && x / 2 == rest;
    if k == 0 {
      assert (a % 2 + b % 2) % 2 == low;
    } else {
      XorBitsBit(a / 2, b / 2, n - 1, k - 1);
    }
  }

  /** Exclusive-or adds the binary digits without carry. */
  lemma XorBit(a: byte, b: byte, k: nat)
    requires k < 8
    ensures Bit(Xor(a, b), k) == (Bit(a, k) + Bit(b, k)) % 2
  {
    XorBitsBit(a, b, 8, k);
  }

  /** A number below 2^n is determined by its n digits. */
  lemma {:induction false} BitsDetermine(a: nat, b: nat, n: nat)
    requires a < Pow2(n) && b < Pow2(n) && forall k :: 0 <= k < n ==> Bit(a, k) == Bit(b, k)
    ensures a == b
  {
    if n == 0 {
    } else {
      assert Bit(a, 0) == Bit(b, 0);
      forall k | 0 <= k < n - 1
        ensures Bit(a / 2, k) == Bit(b / 2, k)
      {
        assert Bit(a, k + 1) == Bit(b, k + 1);
      }
      BitsDetermine(a / 2, b / 2, n - 1);
    }
  }

  lemma {:induction false} ZeroBits(k: nat)
    ensures Bit(0, k) == 0
  {
    if k == 0 {
    } else {
      ZeroBits(k - 1);
    }
  }

  lemma {:induction false} XorBitsZero(a: nat, n: nat)
    requires a < Pow2(n)
    ensures XorBits(a, 0, n) == a
  {
    if n == 0 {
    } else {
      XorBitsZero(a / 2, n - 1);
    }
  }

  /** A byte is changed by exclusive-or exactly when the other byte is not zero. */
  lemma XorChanges(a: byte, b: byte)
    ensures Xor(a, b) != a <==> b != 0
  {
    Pow2Of8();
    if b == 0 {
      XorBitsZero(a, 8);
    } else if Xor(a, b) == a {
      forall k | 0 <= k < 8
        ensures Bit(b, k) == Bit(0, k)
      {
        XorBit(a, b, k);
        ZeroBits(k);
        BitIsBinary(b, k);
      }
      BitsDetermine(b, 0, 8);
    }
  }

  lemma {:induction false} BitIsBinary(x: nat, k: nat)
    ensures Bit(x, k) == 0 || Bit(x, k) == 1
  {
    if k == 0 {
    } else {
      BitIsBinary(x / 2, k - 1);
    }
  }

  /** A stream cipher applied to `p` from keystream position `pos`. */
  function XorStream(p: seq<byte>, stream: nat -> byte, pos: nat): (q: seq<byte>)
    ensures |q| == |p|
    ensures forall i :: 0 <= i < |p| ==> q[i] == Xor(p[i], stream(pos + i))
  {
    seq(|p|, i requires 0 <= i < |p| => Xor(p[i], stream(pos + i)))
  }

  lemma XorStreamCancels(p: seq<byte>, stream: nat -> byte, pos: nat)
    ensures XorStream(XorStream(p, stream, pos), stream, pos) == p
  {
    forall i | 0 <= i < |p|
      ensures XorStream(XorStream(p, stream, pos), stream, pos)[i] == p[i]
    {
      XorCancels(p[i], stream(pos + i));
    }
  }

  function Zeros(n: nat): (z: seq<byte>)
    ensures |z| == n
    ensures forall i :: 0 <= i < n ==> z[i] == 0
  {
    seq(n, _ => 0)
  }

  type u16 = x: int | 0 <= x < 0x1_0000
  type u32 = x: int | 0 <= x < 0x1_0000_0000

  function PutU16(v: u16): (b: seq<byte>)
    ensures |b| == 2 && 256 * b[0] as int + b[1] as int == v
    ensures GetU16(b) == v
  {
    [v / 256, v % 256]
  }

  function GetU16(b: seq<byte>): (v: u16)
    requires |b| >= 2
  {
    b[0] as int * 256 + b[1] as int
  }

  function PutU32(v: u32): (b: seq<byte>)
    ensures |b| == 4 && 0x100_0000 * b[0] as int + 0x1_0000 * b[1] as int + 256 * b[2] as int + b[3] as int == v
    ensures GetU32(b) == v
  {
    var b := PutU16(v / 0x1_0000) + PutU16(v % 0x1_0000);
    assert b[..2] == PutU16(v / 0x1_0000) && b[2..4] == PutU16(v % 0x1_0000);
    b
  }

  function GetU32(b: seq<byte>): (v: u32)
    requires |b| >= 4
  {
    GetU16(b[..2]) as int * 0x1_0000 + GetU16(b[2..4]) as int
  }

  /** Two-byte fields are canonical: decoding then encoding restores the bytes. */
  lemma PutGetU16(b: seq<byte>)
    requires |b| == 2
    ensures PutU16(GetU16(b)) == b
  {
  }

  lemma JoinSplit(hi: u16, lo: u16)
    ensures (hi as int * 0x1_0000 + lo as int) / 0x1_0000 == hi
    ensures (hi as int * 0x1_0000 + lo as int) % 0x1_0000 == lo
  {
  }

  lemma PutGetU32(b: seq<byte>)
    requires |b| == 4
    ensures PutU32(GetU32(b)) == b
  {
    JoinSplit(GetU16(b[..2]), GetU16(b[2..4]));
    PutGetU16(b[..2]);
    PutGetU16(b[2..4]);
    assert b == b[..2] + b[2..4];
  }
}
