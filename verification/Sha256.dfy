/**
 SHA-256 as FIPS 180-4 defines it (sections 4.1.2, 4.2.2, 5.1.1, 5.3.3 and 6.2.2), and the streaming
 context that computes it from any split of the message. The word arithmetic is one value, so the
 structure of the computation is proved for every word arithmetic and used with the 32-bit one.
 */
module Sha256 {
  import opened Bytes

  const BLOCK_SIZE: nat := 64
  const DIGEST_SIZE: nat := 32

  /** What SHA-256 does with words. */
  datatype Arithmetic<!T> = Arithmetic(
    load: (byte, byte, byte, byte) -> T,
    store: T -> seq<byte>,
    add: (T, T) -> T,
    /** The next schedule word, from the words 2, 7, 15 and 16 places back. */
    extend: (T, T, T, T) -> T,
    /** T1 of a round, from h, e, f, g, the round constant and the schedule word. */
    first: (T, T, T, T, T, T) -> T,
    /** T2 of a round, from a, b, c. */
    second: (T, T, T) -> T,
    constants: seq<T>,
    initial: seq<T>)

  ghost predicate Sized<T(!new)>(w: Arithmetic<T>) {
    |w.constants| == 64 && |w.initial| == 8 && forall x :: |w.store(x)| == 4
  }

  // ---------------------------------------------------------------- the 32-bit arithmetic

  function BigSigma0(x: bv32): bv32 {
    x.RotateRight(2) ^ x.RotateRight(13) ^ x.RotateRight(22)
  }

  function BigSigma1(x: bv32): bv32 {
    x.RotateRight(6) ^ x.RotateRight(11) ^ x.RotateRight(25)
  }

  function SmallSigma0(x: bv32): bv32 {
    x.RotateRight(7) ^ x.RotateRight(18) ^ (x >> 3)
  }

  function SmallSigma1(x: bv32): bv32 {
    x.RotateRight(17) ^ x.RotateRight(19) ^ (x >> 10)
  }

  function Choice(x: bv32, y: bv32, z: bv32): bv32 {
    (x & y) ^ (!x & z)
  }

  function Majority(x: bv32, y: bv32, z: bv32): bv32 {
    (x & y) ^ (x & z) ^ (y & z)
  }

  function LoadWord(a: byte, b: byte, c: byte, d: byte): bv32 {
    (a as bv32 << 24) | (b as bv32 << 16) | (c as bv32 << 8) | d as bv32
  }

  function StoreWord(w: bv32): (s: seq<byte>)
    ensures |s| == 4
  {
    [((w >> 24) & 0xff) as bv8 as int, ((w >> 16) & 0xff) as bv8 as int, ((w >> 8) & 0xff) as bv8 as int,
        (w & 0xff) as bv8 as int]
  }

  function RoundConstants(): (k: seq<bv32>)
    ensures |k| == 64
  {
    [0x428a2f98, 0x71374491, 0xb5c0fbcf, 0xe9b5dba5, 0x3956c25b, 0x59f111f1, 0x923f82a4, 0xab1c5ed5]
    + [0xd807aa98, 0x12835b01, 0x243185be, 0x550c7dc3, 0x72be5d74, 0x80deb1fe, 0x9bdc06a7, 0xc19bf174]
    + [0xe49b69c1, 0xefbe4786, 0x0fc19dc6, 0x240ca1cc, 0x2de92c6f, 0x4a7484aa, 0x5cb0a9dc, 0x76f988da]
    + [0x983e5152, 0xa831c66d, 0xb00327c8, 0xbf597fc7, 0xc6e00bf3, 0xd5a79147, 0x06ca6351, 0x14292967]
    + [0x27b70a85, 0x2e1b2138, 0x4d2c6dfc, 0x53380d13, 0x650a7354, 0x766a0abb, 0x81c2c92e, 0x92722c85]
    + [0xa2bfe8a1, 0xa81a664b, 0xc24b8b70, 0xc76c51a3, 0xd192e819, 0xd6990624, 0xf40e3585, 0x106aa070]
    + [0x19a4c116, 0x1e376c08, 0x2748774c, 0x34b0bcb5, 0x391c0cb3, 0x4ed8aa4a, 0x5b9cca4f, 0x682e6ff3]
    + [0x748f82ee, 0x78a5636f, 0x84c87814, 0x8cc70208, 0x90befffa, 0xa4506ceb, 0xbef9a3f7, 0xc67178f2]
  }

  function InitialWords(): (h: seq<bv32>)
    ensures |h| == 8
  {
    [0x6a09e667, 0xbb67ae85, 0x3c6ef372, 0xa54ff53a, 0x510e527f, 0x9b05688c, 0x1f83d9ab, 0x5be0cd19]
  }

  function Add(x: bv32, y: bv32): bv32 {
    x + y
  }

  function Extend(w2: bv32, w7: bv32, w15: bv32, w16: bv32): bv32 {
    SmallSigma1(w2) + w7 + SmallSigma0(w15) + w16
  }

  function FirstTerm(h: bv32, e: bv32, f: bv32, g: bv32, k: bv32, x: bv32): bv32 {
    h + BigSigma1(e) + Choice(e, f, g) + k + x
  }

  function SecondTerm(a: bv32, b: bv32, c: bv32): bv32 {
    BigSigma0(a) + Majority(a, b, c)
  }

  function Words32(): (w: Arithmetic<bv32>)
    ensures Sized(w)
  {
    Arithmetic(
      LoadWord,
      StoreWord,
      Add,
      Extend,
      FirstTerm,
      SecondTerm,
      RoundConstants(),
      InitialWords())
  }

  // ---------------------------------------------------------------- the function

  /** The message schedule of a block. */
  function Schedule<T>(w: Arithmetic<T>, block: seq<byte>, t: nat): T
    requires |block| == BLOCK_SIZE && t < 64
  {
    if t < 16 then w.load(block[4 * t], block[4 * t + 1], block[4 * t + 2], block[4 * t + 3])
    else
      w.extend(Schedule(w, block, t - 2), Schedule(w, block, t - 7),
               Schedule(w, block, t - 15), Schedule(w, block, t - 16))
  }

  function Round<T>(w: Arithmetic<T>, v: seq<T>, k: T, x: T): (r: seq<T>)
    requires |v| == 8
    ensures |r| == 8
  {
    var t1 := w.first(v[7], v[4], v[5], v[6], k, x);
    var t2 := w.second(v[0], v[1], v[2]);
    [w.add(t1, t2), v[0], v[1], v[2], w.add(v[3], t1), v[4], v[5], v[6]]
  }

  function Rounds<T>(w: Arithmetic<T>, h: seq<T>, block: seq<byte>, n: nat): (r: seq<T>)
    requires |w.constants| == 64 && |h| == 8 && |block| == BLOCK_SIZE && n <= 64
    ensures |r| == 8
  {
    if n == 0 then h else Round(w, Rounds(w, h, block, n - 1), w.constants[n - 1], Schedule(w, block, n - 1))
  }

  function Compress<T>(w: Arithmetic<T>, h: seq<T>, block: seq<byte>): (r: seq<T>)
    requires |w.constants| == 64 && |h| == 8 && |block| == BLOCK_SIZE
    ensures |r| == 8
  {
    seq(8, i requires 0 <= i < 8 => w.add(h[i], Rounds(w, h, block, 64)[i]))
  }

  /** The chaining value after all blocks of a message whose length is a multiple of 64. */
  function Absorb<T>(w: Arithmetic<T>, m: seq<byte>): (r: seq<T>)
    requires |w.constants| == 64 && |w.initial| == 8 && |m| % BLOCK_SIZE == 0
    ensures |r| == 8
  {
    if |m| == 0 then w.initial
    else Compress(w, Absorb(w, m[..|m| - BLOCK_SIZE]), m[|m| - BLOCK_SIZE..])
  }

  /** The fewest zeros that leave room for the length at the end of a block. */
  function PadZeros(length: nat): (k: nat)
    ensures (length + 1 + k + 8) % BLOCK_SIZE == 0 && k < BLOCK_SIZE
  {
    (55 - length) % 64
  }

  function PadWith(m: seq<byte>, length: seq<byte>): (p: seq<byte>)
    requires |length| == 8
    ensures |p| % BLOCK_SIZE == 0
  {
    m + [0x80] + Zeros(PadZeros(|m|)) + length
  }

  function Pad(m: seq<byte>): (p: seq<byte>)
    ensures |p| % BLOCK_SIZE == 0
  {
    PadWith(m, BigEndian(8 * |m|, 8))
  }

  /** The bytes of the first `n` words. */
  ghost function WordsBytes<T(!new)>(w: Arithmetic<T>, h: seq<T>, n: nat): (s: seq<byte>)
    requires n <= |h| && Sized(w)
    ensures |s| == 4 * n
  {
    if n == 0 then [] else WordsBytes(w, h, n - 1) + w.store(h[n - 1])
  }

  ghost function HashWith<T(!new)>(w: Arithmetic<T>, m: seq<byte>): (d: seq<byte>)
    requires Sized(w)
    ensures |d| == DIGEST_SIZE
  {
    WordsBytes(w, Absorb(w, Pad(m)), 8)
  }

  /** The SHA-256 digest of a message. */
  ghost function Hash(m: seq<byte>): (d: seq<byte>)
    ensures |d| == DIGEST_SIZE
  {
    HashWith(Words32(), m)
  }

  // ---------------------------------------------------------------- one block, in place

  lemma ScheduleAt<T>(w: Arithmetic<T>, block: seq<byte>, t: nat)
    requires |block| == BLOCK_SIZE && t < 64
    ensures Schedule(w, block, t) ==
            if t < 16 then w.load(block[4 * t], block[4 * t + 1], block[4 * t + 2], block[4 * t + 3])
            else w.extend(Schedule(w, block, t - 2), Schedule(w, block, t - 7),
                          Schedule(w, block, t - 15), Schedule(w, block, t - 16))
  {
  }

  method BuildSchedule<T(0)>(w: Arithmetic<T>, block: array<byte>) returns (schedule: array<T>)
    requires block.Length == BLOCK_SIZE
    ensures fresh(schedule) && schedule.Length == 64
    ensures forall j :: 0 <= j < 64 ==> schedule[j] == Schedule(w, block[..], j)
  {
    hide Schedule;
    ghost var bytes := block[..];
    schedule := new T[64];
    for i := 0 to 16
      invariant forall j :: 0 <= j < i ==> schedule[j] == Schedule(w, bytes, j)
    {
      ScheduleAt(w, bytes, i);
      schedule[i] := w.load(block[4 * i], block[4 * i + 1], block[4 * i + 2], block[4 * i + 3]);
    }
    for i := 16 to 64
      invariant forall j :: 0 <= j < i ==> schedule[j] == Schedule(w, bytes, j)
    {
      ScheduleAt(w, bytes, i);
      schedule[i] := w.extend(schedule[i - 2], schedule[i - 7], schedule[i - 15], schedule[i - 16]);
    }
  }

  method RoundInPlace<T>(w: Arithmetic<T>, v: array<T>, k: T, x: T)
    requires v.Length == 8
    modifies v
    ensures v[..] == Round(w, old(v[..]), k, x)
  {
    var t1 := w.first(v[7], v[4], v[5], v[6], k, x);
    var t2 := w.second(v[0], v[1], v[2]);
    v[7] := v[6];
    v[6] := v[5];
    v[5] := v[4];
    v[4] := w.add(v[3], t1);
    v[3] := v[2];
    v[2] := v[1];
    v[1] := v[0];
    v[0] := w.add(t1, t2);
  }

  method RunRounds<T(0)>(w: Arithmetic<T>, state: array<T>, block: array<byte>, schedule: array<T>)
        returns (v: array<T>)
    requires |w.constants| == 64 && state.Length == 8 && block.Length == BLOCK_SIZE && schedule.Length == 64
    requires forall j :: 0 <= j < 64 ==> schedule[j] == Schedule(w, block[..], j)
    ensures fresh(v) && v.Length == 8
    ensures v[..] == Rounds(w, state[..], block[..], 64)
  {
    v := new T[8];
    for i := 0 to 8
      invariant v[..i] == state[..i]
    {
      v[i] := state[i];
    }
    assert v[..] == state[..];
    for i := 0 to 64
      invariant v[..] == Rounds(w, state[..], block[..], i)
    {
      RoundInPlace(w, v, w.constants[i], schedule[i]);
    }
  }

  /** Compress one block into the running state. */
  method Transform<T(0)>(w: Arithmetic<T>, state: array<T>, block: array<byte>)
    requires |w.constants| == 64 && state.Length == 8 && block.Length == BLOCK_SIZE
    modifies state
    ensures state[..] == Compress(w, old(state[..]), block[..])
  {
    var schedule := BuildSchedule(w, block);
    var v := RunRounds(w, state, block, schedule);
    ghost var rounds := v[..];
    for i := 0 to 8
      invariant v[..] == rounds
      invariant forall j :: i <= j < 8 ==> state[j] == old(state[j])
      invariant forall j :: 0 <= j < i ==> state[j] == w.add(old(state[j]), rounds[j])
    {
      state[i] := w.add(state[i], v[i]);
    }
  }

  // ---------------------------------------------------------------- the streaming context

  /** The bytes of a message that fill whole blocks, and those that do not. */
  function Whole(m: seq<byte>): (s: seq<byte>)
    ensures |s| % BLOCK_SIZE == 0
  {
    m[..|m| - |m| % BLOCK_SIZE]
  }

  function Tail(m: seq<byte>): (s: seq<byte>)
    ensures |s| == |m| % BLOCK_SIZE
  {
    m[|m| - |m| % BLOCK_SIZE..]
  }

  lemma AddedWithinBlock(m: seq<byte>, c: seq<byte>)
    requires |m| % BLOCK_SIZE + |c| < BLOCK_SIZE
    ensures Whole(m + c) == Whole(m) && Tail(m + c) == Tail(m) + c
  {
    assert |m + c| % BLOCK_SIZE == |m| % BLOCK_SIZE + |c|;
  }

  lemma AddedToFillBlock<T>(w: Arithmetic<T>, m: seq<byte>, c: seq<byte>)
    requires |w.constants| == 64 && |w.initial| == 8 && |m| % BLOCK_SIZE + |c| == BLOCK_SIZE
    ensures Whole(m + c) == m + c && Tail(m + c) == []
    ensures Absorb(w, m + c) == Compress(w, Absorb(w, Whole(m)), Tail(m) + c)
  {
    assert |m + c| % BLOCK_SIZE == 0;
    assert (m + c)[..|m + c| - BLOCK_SIZE] == Whole(m);
    assert (m + c)[|m + c| - BLOCK_SIZE..] == Tail(m) + c;
  }

  method CopyInto(block: array<byte>, at: nat, data: seq<byte>)
    requires at + |data| <= block.Length
    modifies block
    ensures block[..at] == old(block[..at]) && block[at..at + |data|] == data
    ensures block[at + |data|..] == old(block[at + |data|..])
  {
    for i := 0 to |data|
      invariant block[..at] == old(block[..at]) && block[at..at + i] == data[..i]
      invariant block[at + i..] == old(block[at + i..])
    {
      block[at + i] := data[i];
      assert block[at..at + i + 1] == block[at..at + i] + [data[i]];
    }
    assert data[..|data|] == data;
  }

  method CopyOf<T(0)>(s: seq<T>) returns (a: array<T>)
    ensures fresh(a) && a[..] == s
  {
    a := new T[|s|];
    for i := 0 to |s|
      invariant a[..i] == s[..i]
    {
      a[i] := s[i];
    }
  }

  /** Counting bits modulo 2^64, update by update. */
  lemma BitCountAdds(a: nat, b: nat)
    ensures (8 * a % TWO_64 + b * 8) % TWO_64 == 8 * (a + b) % TWO_64
  {
    assert 8 * a == TWO_64 * (8 * a / TWO_64) + 8 * a % TWO_64;
    ModAdds(8 * a / TWO_64, 8 * a % TWO_64 + b * 8);
  }

  lemma SmallBitCount(n: nat)
    requires n < TWO_63 / 4
    ensures 8 * n % TWO_64 == 8 * n
  {
  }

  lemma ModAdds(q: nat, r: nat)
    ensures (TWO_64 * q + r) % TWO_64 == r % TWO_64
  {
  }

  class Context<T(0,!new)> {
    const w: Arithmetic<T>
    const state: array<T>
    const block: array<byte>
    var blockLength: nat
    var bitCount: nat

    /** Everything fed in so far. */
    ghost var message: seq<byte>

    ghost predicate Staged()
      reads this, state, block
    {
      && Sized(w) && state.Length == 8 && block.Length == BLOCK_SIZE
      && blockLength == |message| % BLOCK_SIZE
      && block[..blockLength] == Tail(message)
      && state[..] == Absorb(w, Whole(message))
    }

    ghost predicate Valid()
      reads this, state, block
    {
      Staged() && bitCount == 8 * |message| % TWO_64
    }

    constructor (w: Arithmetic<T>)
      requires Sized(w)
      ensures Valid() && message == [] && this.w == w && fresh(state) && fresh(block)
    {
      this.w := w;
      var initial := CopyOf(w.initial);
      state := initial;
      var zeros := CopyOf(Zeros(BLOCK_SIZE));
      block := zeros;
      blockLength, bitCount, message := 0, 0, [];
      SmallBitCount(0);
      assert Whole([]) == [] && Tail([]) == [];
    }

    /** Stage some bytes that fit the current block, compressing it when it fills. */
    method Feed(data: seq<byte>)
      requires Staged() && blockLength + |data| <= BLOCK_SIZE
      modifies this, state, block
      ensures Staged() && message == old(message) + data && bitCount == old(bitCount)
    {
      CopyInto(block, blockLength, data);
      ghost var m := message;
      blockLength := blockLength + |data|;
      assert block[..blockLength] == Tail(m) + data;
      if blockLength == BLOCK_SIZE {
        AddedToFillBlock(w, m, data);
        assert block[..] == Tail(m) + data;
        Transform(w, state, block);
        blockLength := 0;
      } else {
        AddedWithinBlock(m, data);
      }
      message := message + data;
    }

    /** Feed any number of bytes. */
    method Update(data: seq<byte>)
      requires Valid()
      modifies this, state, block
      ensures Valid() && message == old(message) + data
    {
      BitCountAdds(|message|, |data|);
      bitCount := (bitCount + |data| * 8) % TWO_64;
      FeedAll(data);
    }

    method FeedAll(data: seq<byte>)
      requires Staged()
      modifies this, state, block
      ensures Staged() && message == old(message) + data && bitCount == old(bitCount)
    {
      hide Absorb, Whole, Tail;
      var index := 0;
      while index < |data|
        invariant 0 <= index <= |data| && Staged()
        invariant message == old(message) + data[..index]
        invariant bitCount == old(bitCount)
      {
        var room := BLOCK_SIZE - blockLength;
        var n := if room > |data| - index then |data| - index else room;
        Feed(data[index..index + n]);
        assert data[..index] + data[index..index + n] == data[..index + n];
        index := index + n;
      }
      assert data[..|data|] == data;
    }

    /** Fill the block with zeros up to `end`. */
    method ZeroFill(end: nat)
      requires block.Length == BLOCK_SIZE && blockLength <= end <= BLOCK_SIZE
      modifies this`blockLength, block
      ensures blockLength == end && block[..end] == old(block[..blockLength]) + Zeros(end - old(blockLength))
    {
      ghost var start := blockLength;
      while blockLength < end
        invariant start <= blockLength <= end
        invariant block[..blockLength] == old(block[..blockLength]) + Zeros(blockLength - start)
      {
        block[blockLength] := 0;
        blockLength := blockLength + 1;
        assert block[..blockLength] == block[..blockLength - 1] + [0];
      }
    }

    /** The marker byte and, when the length no longer fits, the rest of the block: `padded` is what was fed then. */
    method StartPadding() returns (ghost padded: seq<byte>)
      requires Staged()
      modifies this, state, block
      ensures Sized(w) && blockLength <= 56 && message == old(message) && bitCount == old(bitCount)
      ensures |padded| % BLOCK_SIZE == blockLength && block[..blockLength] == Tail(padded)
      ensures state[..] == Absorb(w, Whole(padded))
      ensures padded == message + [0x80] + Zeros(if |message| % BLOCK_SIZE < 56 then 0 else 63 - |message| % BLOCK_SIZE)
    {
      ghost var m, used := message, blockLength;
      block[blockLength] := 0x80;
      blockLength := blockLength + 1;
      assert block[..blockLength] == Tail(m) + [0x80];
      if blockLength > 56 {
        ZeroFill(BLOCK_SIZE);
        ghost var c := [0x80] + Zeros(63 - used);
        assert block[..] == block[..BLOCK_SIZE] == Tail(m) + c;
        AddedToFillBlock(w, m, c);
        Transform(w, state, block);
        blockLength := 0;
        padded := m + c;
      } else {
        AddedWithinBlock(m, [0x80]);
        padded := m + [0x80] + Zeros(0);
        assert padded == m + [0x80];
      }
      assert padded == m + [0x80] + Zeros(if used < 56 then 0 else 63 - used);
    }

    /** Pad the message, append its length in bits and return the digest of everything fed in. */
    method Final() returns (digest: seq<byte>)
      requires Valid() && |message| < TWO_63 / 4
      modifies this, state, block
      ensures digest == HashWith(w, old(message))
    {
      hide Absorb, Compress, BigEndian, Tail, Whole, WordsBytes;
      ghost var m := message;
      SmallBitCount(|m|);
      assert bitCount == 8 * |m|;
      ghost var padded := StartPadding();
      ghost var used := blockLength;
      ZeroFill(56);
      var length := BigEndian(bitCount, 8);
      CopyInto(block, 56, length);
      ghost var c := Zeros(56 - used) + length;
      assert block[..] == block[..56] + block[56..64];
      assert block[..] == Tail(padded) + c;
      AddedToFillBlock(w, padded, c);
      Transform(w, state, block);
      PaddingIsComplete(m, padded, used, length);
      assert state[..] == Absorb(w, Pad(m));
      digest := Output();
    }

    method Output() returns (digest: seq<byte>)
      requires Sized(w) && state.Length == 8
      ensures digest == WordsBytes(w, state[..], 8)
    {
      digest := [];
      for i := 0 to 8
        invariant digest == WordsBytes(w, state[..], i)
      {
        digest := digest + w.store(state[i]);
      }
    }
  }

  lemma PadCounts(n: nat, first: nat)
    requires first == if n % BLOCK_SIZE < 56 then 0 else 63 - n % BLOCK_SIZE
    ensures (n + 1 + first) % BLOCK_SIZE <= 56
    ensures PadZeros(n) == first + 56 - (n + 1 + first) % BLOCK_SIZE
  {
    var q, r := n / BLOCK_SIZE, n % BLOCK_SIZE;
    assert n == 64 * q + r;
    if r < 56 {
      assert n + 1 + first == 64 * q + (r + 1);
      assert 55 - n == 64 * (-q) + (55 - r);
    } else {
      assert n + 1 + first == 64 * (q + 1);
      assert 55 - n == 64 * (-q - 1) + (119 - r);
    }
  }

  /** The marker, the zeros of both loops and the length make up the padding. */
  lemma PaddingIsComplete(m: seq<byte>, padded: seq<byte>, used: nat, length: seq<byte>)
    requires padded == m + [0x80] + Zeros(if |m| % BLOCK_SIZE < 56 then 0 else 63 - |m| % BLOCK_SIZE)
    requires used == |padded| % BLOCK_SIZE && used <= 56 && |length| == 8
    ensures padded + (Zeros(56 - used) + length) == PadWith(m, length)
  {
    var first := if |m| % BLOCK_SIZE < 56 then 0 else 63 - |m| % BLOCK_SIZE;
    PadCounts(|m|, first);
    JoinZeros(m + [0x80], first, 56 - used, length);
  }

  lemma JoinZeros(a: seq<byte>, m: nat, n: nat, b: seq<byte>)
    ensures a + Zeros(m) + (Zeros(n) + b) == a + Zeros(m + n) + b
  {
    assert Zeros(m) + Zeros(n) == Zeros(m + n);
  }
}
