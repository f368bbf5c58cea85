/** Bytes, big-endian integers and exclusive-or, shared by every codec of the service. */
module Bytes {

  type byte = b: int | 0 <= b < 256

  datatype Option<+T> = None | Some(value: T)

  const TWO_32 := 0x1_0000_0000
  const TWO_63 := 0x8000_0000_0000_0000
  const TWO_64 := 0x1_0000_0000_0000_0000

  /** 256 to the power `width`. */
  function Pow256(width: nat): (p: nat)
    ensures p > 0
  {
    if width == 0 then 1 else 256 * Pow256(width - 1)
  }

  /** The `width` low-order bytes of `n`, most significant first. */
  function BigEndian(n: nat, width: nat): (s: seq<byte>)
    ensures |s| == width
  {
    if width == 0 then [] else BigEndian(n / 256, width - 1) + [n % 256]
  }

  /** The number a big-endian byte string denotes. */
  function FromBigEndian(s: seq<byte>): nat {
    if |s| == 0 then 0 else FromBigEndian(s[..|s| - 1]) * 256 + s[|s| - 1]
  }

  lemma {:induction false} BigEndianRoundTrip(n: nat, width: nat)
    requires n < Pow256(width)
    ensures FromBigEndian(BigEndian(n, width)) == n
  {
    if width > 0 {
      BigEndianRoundTrip(n / 256, width - 1);
      assert BigEndian(n, width)[..width - 1] == BigEndian(n / 256, width - 1);
    }
  }

  lemma {:induction false} FromBigEndianBound(s: seq<byte>)
    ensures FromBigEndian(s) < Pow256(|s|)
  {
    if |s| > 0 {
      FromBigEndianBound(s[..|s| - 1]);
    }
  }

  lemma Pow256Values()
    ensures Pow256(4) == TWO_32
    ensures Pow256(8) == TWO_64
  {
    assert Pow256(2) == 0x1_0000;
    assert Pow256(4) == 0x1_0000 * 0x1_0000;
    assert Pow256(6) == 0x1_0000 * TWO_32;
  }

  /** A size or enumeration value stored through a cast to a 32-bit unsigned integer. */
  function U32(n: nat): (s: seq<byte>)
    ensures |s| == 4
  {
    BigEndian(n % TWO_32, 4)
  }

  /** A signed 64-bit time stored through a cast to a 64-bit unsigned integer. */
  function U64(n: int): (s: seq<byte>)
    ensures |s| == 8
  {
    BigEndian(n % TWO_64, 8)
  }

  /** The cast from a 64-bit unsigned integer back to a signed one. */
  function Signed64(n: nat): int {
    var m := n % TWO_64;
    if m < TWO_63 then m else m - TWO_64
  }

  predicate IsInt64(n: int) {
    -TWO_63 <= n < TWO_63
  }

  lemma U32RoundTrip(n: nat)
    ensures FromBigEndian(U32(n)) == n % TWO_32
  {
    Pow256Values();
    BigEndianRoundTrip(n % TWO_32, 4);
  }

  lemma U64RoundTrip(n: int)
    requires IsInt64(n)
    ensures Signed64(FromBigEndian(U64(n))) == n
  {
    Pow256Values();
    BigEndianRoundTrip(n % TWO_64, 8);
  }

  function Pow2(bits: nat): (p: nat)
    ensures p > 0
  {
    if bits == 0 then 1 else 2 * Pow2(bits - 1)
  }

  /** Bitwise exclusive-or of the `bits` low-order bits. */
  function XorBits(a: nat, b: nat, bits: nat): (x: nat)
    ensures x < Pow2(bits)
  {
    if bits == 0 then 0 else (a + b) % 2 + 2 * XorBits(a / 2, b / 2, bits - 1)
  }

  lemma XorLowBit(a: nat, b: nat)
    ensures ((a + b) % 2 + b) % 2 == a % 2
  {
  }

  lemma XorHalves(low: nat, rest: nat, b: nat)
    requires low < 2
    ensures (low + 2 * rest) / 2 == rest && (low + 2 * rest + b) % 2 == (low + b) % 2
  {
  }

  lemma {:induction false} XorBitsInvolutive(a: nat, b: nat, bits: nat)
    requires a < Pow2(bits)
    ensures XorBits(XorBits(a, b, bits), b, bits) == a
  {
    if bits > 0 {
      var low, rest := (a + b) % 2, XorBits(a / 2, b / 2, bits - 1);
      XorHalves(low, rest, b);
      XorLowBit(a, b);
      XorBitsInvolutive(a / 2, b / 2, bits - 1);
      assert XorBits(low + 2 * rest, b, bits) == (low + b) % 2 + 2 * XorBits(rest, b / 2, bits - 1);
    }
  }

  lemma Pow2Of8()
    ensures Pow2(8) == 256
  {
    assert Pow2(4) == 16;
  }

  function Xor(a: byte, b: byte): byte {
    Pow2Of8();
    XorBits(a, b, 8)
  }

  lemma XorInvolutive(a: byte, b: byte)
    ensures Xor(Xor(a, b), b) == a
  {
    Pow2Of8();
    XorBitsInvolutive(a, b, 8);
  }

  function Zeros(n: nat): (s: seq<byte>)
    ensures |s| == n
  {
    seq(n, i => 0)
  }

  // ---------------------------------------------------------------- C strings

  /** The bytes before the first NUL: what a C string of these bytes holds. */
  function UpToNul(s: seq<byte>): seq<byte> {
    if |s| == 0 || s[0] == 0 then [] else [s[0]] + UpToNul(s[1..])
  }

  lemma {:induction false} NoNulToCutAt(s: seq<byte>)
    requires forall i :: 0 <= i < |s| ==> s[i] != 0
    ensures UpToNul(s) == s
  {
    if |s| > 0 {
      NoNulToCutAt(s[1..]);
    }
  }

  /** Reading bytes as a C string cuts them at their first NUL. */
  method CutAtNul(s: seq<byte>) returns (text: seq<byte>)
    ensures text == UpToNul(s)
  {
    var i := 0;
    while i < |s| && s[i] != 0
      invariant i <= |s|
      invariant UpToNul(s) == s[..i] + UpToNul(s[i..])
    {
      assert s[..i + 1] == s[..i] + [s[i]];
      i := i + 1;
    }
    text := s[..i];
  }
}
