/**
 What the parts of SHA-256, of HMAC and of the padding have to be, in the terms of FIPS 180-4 and RFC 2104: the
 constants as fractional parts of roots of primes, the word functions by shifts and masks, the padding and the pads.
 */
module Fips {
  import opened Bytes
  import opened Sha256
  import Crypto

  const TWO_96: nat := 0x1_0000_0000_0000_0000_0000_0000

  // ---------------------------------------------------------------- the first sixty-four primes

  const PRIMES: seq<nat> :=
    [2, 3, 5, 7, 11, 13, 17, 19]
    + [23, 29, 31, 37, 41, 43, 47, 53]
    + [59, 61, 67, 71, 73, 79, 83, 89]
    + [97, 101, 103, 107, 109, 113, 127, 131]
    + [137, 139, 149, 151, 157, 163, 167, 173]
    + [179, 181, 191, 193, 197, 199, 211, 223]
    + [227, 229, 233, 239, 241, 251, 257, 263]
    + [269, 271, 277, 281, 283, 293, 307, 311]

  ghost predicate IsPrime(n: nat) {
    n >= 2 && forall d :: 2 <= d < n ==> n % d != 0
  }

  predicate NotBy(p: nat, n: nat)
    requires p > 0
  {
    n == p || n % p != 0
  }

  /** No prime below 18 divides it, other than itself. */
  predicate Sieved(n: nat) {
    n >= 2 && NotBy(2, n) && NotBy(3, n) && NotBy(5, n) && NotBy(7, n) && NotBy(11, n) && NotBy(13, n) && NotBy(17, n)
  }

  lemma SmallFactor(m: nat) returns (p: nat)
    requires 2 <= m < 18
    ensures (p == 2 || p == 3 || p == 5 || p == 7 || p == 11 || p == 13 || p == 17) && m % p == 0 && p <= m
  {
    p := if m % 2 == 0 then 2 else if m % 3 == 0 then 3 else if m % 5 == 0 then 5 else m;
  }

  lemma DividesProduct(p: nat, m: nat, k: nat)
    requires p > 0 && m % p == 0
    ensures (m * k) % p == 0
  {
    ProductRemainder(p, m / p * k);
    assert m * k == p * (m / p * k);
  }

  lemma ProductRemainder(p: nat, k: nat)
    requires p > 0
    ensures (p * k) % p == 0
  {
    var n := p * k;
    var x := k - n / p;
    assert p * x == n % p;
    assert x >= 1 ==> p * x >= p;
    assert x < 0 ==> p * x < 0;
  }

  lemma TwiceAsMuch(d: nat, k: nat)
    requires d >= 2
    ensures d * k >= 2 * k && d * 1 == d && d * 0 == 0
  {
  }

  lemma FactorsOf(n: nat, d: nat) returns (k: nat)
    requires 2 <= d < n && n % d == 0
    ensures n == d * k && 2 <= k < n
  {
    k := n / d;
    assert n == d * k;
    TwiceAsMuch(d, k);
  }

  lemma Grows(d: nat, k: nat)
    requires d >= 18
    ensures d * k >= 18 * k
  {
  }

  lemma DividedIsNotSieved(n: nat, d: nat)
    requires n < 324 && 2 <= d < n && n % d == 0
    ensures !Sieved(n)
  {
    var k := FactorsOf(n, d);
    assert d < 18 || k < 18 by {
      if d >= 18 { Grows(d, k); }
    }
    var m, other := if d < 18 then d else k, if d < 18 then k else d;
    var p := SmallFactor(m);
    DividesProduct(p, m, other);
    assert n == m * other && n % p == 0 && p < n;
  }

  lemma SievedIsPrime(n: nat)
    requires n < 324
    ensures Sieved(n) <==> IsPrime(n)
  {
    if Sieved(n) {
      forall d | 2 <= d < n
        ensures n % d != 0
      {
        if n % d == 0 {
          DividedIsNotSieved(n, d);
        }
      }
    }
  }

  /** The next prime after `a`. */
  ghost predicate IsNextPrime(a: nat, b: nat) {
    a < b && IsPrime(b) && forall n :: a < n < b ==> !IsPrime(n)
  }

  predicate NoneSieved(lo: nat, hi: nat)
    decreases hi - lo
  {
    lo >= hi || (!Sieved(lo) && NoneSieved(lo + 1, hi))
  }

  lemma {:induction false} NoneSievedMeans(lo: nat, hi: nat)
    requires NoneSieved(lo, hi)
    ensures forall n :: lo <= n < hi ==> !Sieved(n)
    decreases hi - lo
  {
    hide Sieved;
    if lo < hi {
      NoneSievedMeans(lo + 1, hi);
    }
  }

  lemma NextPrime(a: nat, lo: nat, b: nat)
    requires a < lo == a + 1 <= b < 324 && Sieved(b) && NoneSieved(lo, b)
    ensures IsNextPrime(a, b)
  {
    hide Sieved, IsPrime;
    NoneSievedMeans(lo, b);
    forall n | a < n <= b
      ensures Sieved(n) <==> IsPrime(n)
    {
      SievedIsPrime(n);
    }
  }

  // ---------------------------------------------------------------- the constants

  predicate CubeFloor(c: nat, n: nat) {
    c * c * c <= n < (c + 1) * (c + 1) * (c + 1)
  }

  predicate SquareFloor(c: nat, n: nat) {
    c * c <= n < (c + 1) * (c + 1)
  }

  /** `k` is the first 32 bits of the fractional part of the cube root of `p`. */
  ghost predicate CubeRootFraction(k: nat, p: nat) {
    exists c: nat :: CubeFloor(c, p * TWO_96) && c % TWO_32 == k
  }

  /** `k` is the first 32 bits of the fractional part of the square root of `p`. */
  ghost predicate SquareRootFraction(k: nat, p: nat) {
    exists c: nat :: SquareFloor(c, p * TWO_64) && c % TWO_32 == k
  }

  /** Section 4.2.2 for round `i`: the next prime, and the fraction of its cube root. */
  ghost predicate ConstantOk(i: nat) {
    && i < 64 && IsNextPrime(if i == 0 then 1 else PRIMES[i - 1], PRIMES[i])
    && CubeRootFraction(RoundConstants()[i] as nat, PRIMES[i])
  }

  lemma Fraction(c: nat, k: bv32, p: nat)
    requires CubeFloor(c, p * TWO_96) && c % TWO_32 == k as nat
    ensures CubeRootFraction(k as nat, p)
  {
  }

  lemma Constants0To3()
    ensures forall i :: 0 <= i < 4 ==> ConstantOk(i)
  {
    assert PRIMES[0..4] == [2, 3, 5, 7];
    assert RoundConstants()[0..4] == [0x428a2f98, 0x71374491, 0xb5c0fbcf, 0xe9b5dba5];
    hide IsNextPrime, CubeRootFraction, RoundConstants;
    NextPrime(1, 2, 2);
    Fraction(0x1428a2f98, 0x428a2f98, 2);
    NextPrime(2, 3, 3);
    Fraction(0x171374491, 0x71374491, 3);
    NextPrime(3, 4, 5);
    Fraction(0x1b5c0fbcf, 0xb5c0fbcf, 5);
    NextPrime(5, 6, 7);
    Fraction(0x1e9b5dba5, 0xe9b5dba5, 7);
  }

  lemma Constants4To7()
    ensures forall i :: 4 <= i < 8 ==> ConstantOk(i)
  {
    assert PRIMES[4..8] == [11, 13, 17, 19] && PRIMES[3] == 7;
    assert RoundConstants()[4..8] == [0x3956c25b, 0x59f111f1, 0x923f82a4, 0xab1c5ed5];
    hide IsNextPrime, CubeRootFraction, RoundConstants;
    NextPrime(7, 8, 11);
    Fraction(0x23956c25b, 0x3956c25b, 11);
    NextPrime(11, 12, 13);
    Fraction(0x259f111f1, 0x59f111f1, 13);
    NextPrime(13, 14, 17);
    Fraction(0x2923f82a4, 0x923f82a4, 17);
    NextPrime(17, 18, 19);
    Fraction(0x2ab1c5ed5, 0xab1c5ed5, 19);
  }

  lemma Constants8To11()
    ensures forall i :: 8 <= i < 12 ==> ConstantOk(i)
  {
    assert PRIMES[8..12] == [23, 29, 31, 37] && PRIMES[7] == 19;
    assert RoundConstants()[8..12] == [0xd807aa98, 0x12835b01, 0x243185be, 0x550c7dc3];
    hide IsNextPrime, CubeRootFraction, RoundConstants;
    NextPrime(19, 20, 23);
    Fraction(0x2d807aa98, 0xd807aa98, 23);
    NextPrime(23, 24, 29);
    Fraction(0x312835b01, 0x12835b01, 29);
    NextPrime(29, 30, 31);
    Fraction(0x3243185be, 0x243185be, 31);
    NextPrime(31, 32, 37);
    Fraction(0x3550c7dc3, 0x550c7dc3, 37);
  }

  lemma Constants12To15()
    ensures forall i :: 12 <= i < 16 ==> ConstantOk(i)
  {
    assert PRIMES[12..16] == [41, 43, 47, 53] && PRIMES[11] == 37;
    assert RoundConstants()[12..16] == [0x72be5d74, 0x80deb1fe, 0x9bdc06a7, 0xc19bf174];
    hide IsNextPrime, CubeRootFraction, RoundConstants;
    NextPrime(37, 38, 41);
    Fraction(0x372be5d74, 0x72be5d74, 41);
    NextPrime(41, 42, 43);
    Fraction(0x380deb1fe, 0x80deb1fe, 43);
    NextPrime(43, 44, 47);
    Fraction(0x39bdc06a7, 0x9bdc06a7, 47);
    NextPrime(47, 48, 53);
    Fraction(0x3c19bf174, 0xc19bf174, 53);
  }

  lemma Constants16To19()
    ensures forall i :: 16 <= i < 20 ==> ConstantOk(i)
  {
    assert PRIMES[16..20] == [59, 61, 67, 71] && PRIMES[15] == 53;
    assert RoundConstants()[16..20] == [0xe49b69c1, 0xefbe4786, 0x0fc19dc6, 0x240ca1cc];
    hide IsNextPrime, CubeRootFraction, RoundConstants;
    NextPrime(53, 54, 59);
    Fraction(0x3e49b69c1, 0xe49b69c1, 59);
    NextPrime(59, 60, 61);
    Fraction(0x3efbe4786, 0xefbe4786, 61);
    NextPrime(61, 62, 67);
    Fraction(0x40fc19dc6, 0x0fc19dc6, 67);
    NextPrime(67, 68, 71);
    Fraction(0x4240ca1cc, 0x240ca1cc, 71);
  }

  lemma Constants20To23()
    ensures forall i :: 20 <= i < 24 ==> ConstantOk(i)
  {
    assert PRIMES[20..24] == [73, 79, 83, 89] && PRIMES[19] == 71;
    assert RoundConstants()[20..24] == [0x2de92c6f, 0x4a7484aa, 0x5cb0a9dc, 0x76f988da];
    hide IsNextPrime, CubeRootFraction, RoundConstants;
    NextPrime(71, 72, 73);
    Fraction(0x42de92c6f, 0x2de92c6f, 73);
    NextPrime(73, 74, 79);
    Fraction(0x44a7484aa, 0x4a7484aa, 79);
    NextPrime(79, 80, 83);
    Fraction(0x45cb0a9dc, 0x5cb0a9dc, 83);
    NextPrime(83, 84, 89);
    Fraction(0x476f988da, 0x76f988da, 89);
  }

  lemma Constants24To27()
    ensures forall i :: 24 <= i < 28 ==> ConstantOk(i)
  {
    assert PRIMES[24..28] == [97, 101, 103, 107] && PRIMES[23] == 89;
    assert RoundConstants()[24..28] == [0x983e5152, 0xa831c66d, 0xb00327c8, 0xbf597fc7];
    hide IsNextPrime, CubeRootFraction, RoundConstants;
    NextPrime(89, 90, 97);
    Fraction(0x4983e5152, 0x983e5152, 97);
    NextPrime(97, 98, 101);
    Fraction(0x4a831c66d, 0xa831c66d, 101);
    NextPrime(101, 102, 103);
    Fraction(0x4b00327c8, 0xb00327c8, 103);
    NextPrime(103, 104, 107);
    Fraction(0x4bf597fc7, 0xbf597fc7, 107);
  }

  lemma Constants28To31()
    ensures forall i :: 28 <= i < 32 ==> ConstantOk(i)
  {
    assert PRIMES[28..32] == [109, 113, 127, 131] && PRIMES[27] == 107;
    assert RoundConstants()[28..32] == [0xc6e00bf3, 0xd5a79147, 0x06ca6351, 0x14292967];
    hide IsNextPrime, CubeRootFraction, RoundConstants;
    NextPrime(107, 108, 109);
    Fraction(0x4c6e00bf3, 0xc6e00bf3, 109);
    NextPrime(109, 110, 113);
    Fraction(0x4d5a79147, 0xd5a79147, 113);
    NextPrime(113, 114, 127);
    Fraction(0x506ca6351, 0x06ca6351, 127);
    NextPrime(127, 128, 131);
    Fraction(0x514292967, 0x14292967, 131);
  }

  lemma Constants32To35()
    ensures forall i :: 32 <= i < 36 ==> ConstantOk(i)
  {
    assert PRIMES[32..36] == [137, 139, 149, 151] && PRIMES[31] == 131;
    assert RoundConstants()[32..36] == [0x27b70a85, 0x2e1b2138, 0x4d2c6dfc, 0x53380d13];
    hide IsNextPrime, CubeRootFraction, RoundConstants;
    NextPrime(131, 132, 137);
    Fraction(0x527b70a85, 0x27b70a85, 137);
    NextPrime(137, 138, 139);
    Fraction(0x52e1b2138, 0x2e1b2138, 139);
    NextPrime(139, 140, 149);
    Fraction(0x54d2c6dfc, 0x4d2c6dfc, 149);
    NextPrime(149, 150, 151);
    Fraction(0x553380d13, 0x53380d13, 151);
  }

  lemma Constants36To39()
    ensures forall i :: 36 <= i < 40 ==> ConstantOk(i)
  {
    assert PRIMES[36..40] == [157, 163, 167, 173] && PRIMES[35] == 151;
    assert RoundConstants()[36..40] == [0x650a7354, 0x766a0abb, 0x81c2c92e, 0x92722c85];
    hide IsNextPrime, CubeRootFraction, RoundConstants;
    NextPrime(151, 152, 157);
    Fraction(0x5650a7354, 0x650a7354, 157);
    NextPrime(157, 158, 163);
    Fraction(0x5766a0abb, 0x766a0abb, 163);
    NextPrime(163, 164, 167);
    Fraction(0x581c2c92e, 0x81c2c92e, 167);
    NextPrime(167, 168, 173);
    Fraction(0x592722c85, 0x92722c85, 173);
  }

  lemma Constants40To43()
    ensures forall i :: 40 <= i < 44 ==> ConstantOk(i)
  {
    assert PRIMES[40..44] == [179, 181, 191, 193] && PRIMES[39] == 173;
    assert RoundConstants()[40..44] == [0xa2bfe8a1, 0xa81a664b, 0xc24b8b70, 0xc76c51a3];
    hide IsNextPrime, CubeRootFraction, RoundConstants;
    NextPrime(173, 174, 179);
    Fraction(0x5a2bfe8a1, 0xa2bfe8a1, 179);
    NextPrime(179, 180, 181);
    Fraction(0x5a81a664b, 0xa81a664b, 181);
    NextPrime(181, 182, 191);
    Fraction(0x5c24b8b70, 0xc24b8b70, 191);
    NextPrime(191, 192, 193);
    Fraction(0x5c76c51a3, 0xc76c51a3, 193);
  }

  lemma Constants44To47()
    ensures forall i :: 44 <= i < 48 ==> ConstantOk(i)
  {
    assert PRIMES[44..48] == [197, 199, 211, 223] && PRIMES[43] == 193;
    assert RoundConstants()[44..48] == [0xd192e819, 0xd6990624, 0xf40e3585, 0x106aa070];
    hide IsNextPrime, CubeRootFraction, RoundConstants;
    NextPrime(193, 194, 197);
    Fraction(0x5d192e819, 0xd192e819, 197);
    NextPrime(197, 198, 199);
    Fraction(0x5d6990624, 0xd6990624, 199);
    NextPrime(199, 200, 211);
    Fraction(0x5f40e3585, 0xf40e3585, 211);
    NextPrime(211, 212, 223);
    Fraction(0x6106aa070, 0x106aa070, 223);
  }

  lemma Constants48To51()
    ensures forall i :: 48 <= i < 52 ==> ConstantOk(i)
  {
    assert PRIMES[48..52] == [227, 229, 233, 239] && PRIMES[47] == 223;
    assert RoundConstants()[48..52] == [0x19a4c116, 0x1e376c08, 0x2748774c, 0x34b0bcb5];
    hide IsNextPrime, CubeRootFraction, RoundConstants;
    NextPrime(223, 224, 227);
    Fraction(0x619a4c116, 0x19a4c116, 227);
    NextPrime(227, 228, 229);
    Fraction(0x61e376c08, 0x1e376c08, 229);
    NextPrime(229, 230, 233);
    Fraction(0x62748774c, 0x2748774c, 233);
    NextPrime(233, 234, 239);
    Fraction(0x634b0bcb5, 0x34b0bcb5, 239);
  }

  lemma Constants52To55()
    ensures forall i :: 52 <= i < 56 ==> ConstantOk(i)
  {
    assert PRIMES[52..56] == [241, 251, 257, 263] && PRIMES[51] == 239;
    assert RoundConstants()[52..56] == [0x391c0cb3, 0x4ed8aa4a, 0x5b9cca4f, 0x682e6ff3];
    hide IsNextPrime, CubeRootFraction, RoundConstants;
    NextPrime(239, 240, 241);
    Fraction(0x6391c0cb3, 0x391c0cb3, 241);
    NextPrime(241, 242, 251);
    Fraction(0x64ed8aa4a, 0x4ed8aa4a, 251);
    NextPrime(251, 252, 257);
    Fraction(0x65b9cca4f, 0x5b9cca4f, 257);
    NextPrime(257, 258, 263);
    Fraction(0x6682e6ff3, 0x682e6ff3, 263);
  }

  lemma Constants56To59()
    ensures forall i :: 56 <= i < 60 ==> ConstantOk(i)
  {
    assert PRIMES[56..60] == [269, 271, 277, 281] && PRIMES[55] == 263;
    assert RoundConstants()[56..60] == [0x748f82ee, 0x78a5636f, 0x84c87814, 0x8cc70208];
    hide IsNextPrime, CubeRootFraction, RoundConstants;
    NextPrime(263, 264, 269);
    Fraction(0x6748f82ee, 0x748f82ee, 269);
    NextPrime(269, 270, 271);
    Fraction(0x678a5636f, 0x78a5636f, 271);
    NextPrime(271, 272, 277);
    Fraction(0x684c87814, 0x84c87814, 277);
    NextPrime(277, 278, 281);
    Fraction(0x68cc70208, 0x8cc70208, 281);
  }

  lemma Constants60To63()
    ensures forall i :: 60 <= i < 64 ==> ConstantOk(i)
  {
    assert PRIMES[60..64] == [283, 293, 307, 311] && PRIMES[59] == 281;
    assert RoundConstants()[60..64] == [0x90befffa, 0xa4506ceb, 0xbef9a3f7, 0xc67178f2];
    hide IsNextPrime, CubeRootFraction, RoundConstants;
    NextPrime(281, 282, 283);
    Fraction(0x690befffa, 0x90befffa, 283);
    NextPrime(283, 284, 293);
    Fraction(0x6a4506ceb, 0xa4506ceb, 293);
    NextPrime(293, 294, 307);
    Fraction(0x6bef9a3f7, 0xbef9a3f7, 307);
    NextPrime(307, 308, 311);
    Fraction(0x6c67178f2, 0xc67178f2, 311);
  }

  /** The round constants: the cube roots of the first sixty-four primes. */
  lemma RoundConstantsAreCubeRoots(i: nat)
    requires i < 64
    ensures ConstantOk(i)
  {
    hide ConstantOk;
    Constants0To3();
    Constants4To7();
    Constants8To11();
    Constants12To15();
    Constants16To19();
    Constants20To23();
    Constants24To27();
    Constants28To31();
    Constants32To35();
    Constants36To39();
    Constants40To43();
    Constants44To47();
    Constants48To51();
    Constants52To55();
    Constants56To59();
    Constants60To63();
  }

  /** Section 5.3.3: the initial words are the square roots of the first eight. */
  lemma InitialWordsAreSquareRoots(i: nat)
    requires i < 8
    ensures SquareRootFraction(InitialWords()[i] as nat, PRIMES[i])
  {
    assert PRIMES[0..8] == [2, 3, 5, 7, 11, 13, 17, 19];
    assert SquareFloor(0x16a09e667, 2 * TWO_64);
    assert SquareFloor(0x1bb67ae85, 3 * TWO_64);
    assert SquareFloor(0x23c6ef372, 5 * TWO_64);
    assert SquareFloor(0x2a54ff53a, 7 * TWO_64);
    assert SquareFloor(0x3510e527f, 11 * TWO_64);
    assert SquareFloor(0x39b05688c, 13 * TWO_64);
    assert SquareFloor(0x41f83d9ab, 17 * TWO_64);
    assert SquareFloor(0x45be0cd19, 19 * TWO_64);
  }

  // ---------------------------------------------------------------- the word functions

  /** Sections 3.2 and 4.1.2: rotations by these many places, each both halves of a shifted word. */
  lemma BigSigmas(x: bv32)
    ensures BigSigma0(x) == ((x >> 2) | (x << 30)) ^ ((x >> 13) | (x << 19)) ^ ((x >> 22) | (x << 10))
    ensures BigSigma1(x) == ((x >> 6) | (x << 26)) ^ ((x >> 11) | (x << 21)) ^ ((x >> 25) | (x << 7))
  {
  }

  lemma SmallSigmas(x: bv32)
    ensures SmallSigma0(x) == ((x >> 7) | (x << 25)) ^ ((x >> 18) | (x << 14)) ^ (x >> 3)
    ensures SmallSigma1(x) == ((x >> 17) | (x << 15)) ^ ((x >> 19) | (x << 13)) ^ (x >> 10)
  {
  }

  /** Where the first word has ones it chooses the second, where it has zeros the third. */
  lemma ChoiceChooses(x: bv32, y: bv32, z: bv32)
    ensures Choice(x, y, z) & x == y & x
    ensures Choice(x, y, z) & !x == z & !x
  {
  }

  /** Ones where two of the three words have ones. */
  lemma MajorityIsTwoOfThree(x: bv32, y: bv32, z: bv32)
    ensures Majority(x, y, z) == (x & y) | (x & z) | (y & z)
  {
  }

  // ---------------------------------------------------------------- padding and pads

  /** Section 5.1.1: a one bit, the fewest zeros that fit, and the length in bits in the last eight bytes. */
  lemma PaddingIs(m: seq<byte>, i: nat)
    ensures var p := Pad(m);
            && |p| % 64 == 0 && |m| + 9 <= |p| < |m| + 73 && p[..|m|] == m && p[|m|] == 0x80
            && (|m| < i < |p| - 8 ==> p[i] == 0)
            && p[|p| - 8..] == BigEndian(8 * |m|, 8)
  {
  }

  /** RFC 2104, section 2: the byte 0x36 and the byte 0x5C, each repeated for a block of 64 bytes. */
  lemma HmacPads(key: seq<byte>, m: seq<byte>, inner: seq<byte>, outer: seq<byte>)
    requires |inner| == |outer| == 64
    requires var k := if |key| <= 64 then key + Zeros(64 - |key|) else Hash(key) + Zeros(32);
             forall i :: 0 <= i < 64 ==> inner[i] == Xor(k[i], 0x36) && outer[i] == Xor(k[i], 0x5c)
    ensures Crypto.Hmac(key, m) == Hash(outer + Hash(inner + m))
  {
    hide Hash;
    assert inner == Crypto.XorEach(Crypto.BlockKey(key), 0x36);
    assert outer == Crypto.XorEach(Crypto.BlockKey(key), 0x5c);
  }
}
