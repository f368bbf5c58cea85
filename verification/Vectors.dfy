/**
 The published example of SHA-256, the message "abc" (appendix B.1 of FIPS 180-2), computed by the model step by
 step: padding, byte order, schedule, rounds and final addition.
 */
module Vectors {
  import opened Bytes
  import opened Sha256

  const ABC: seq<byte> := [0x61, 0x62, 0x63]

  /** The one block of the padded message: a one bit behind it, and its length of 24 bits at the end. */
  function Block(): (b: seq<byte>)
    ensures |b| == 64
  {
    [0x61, 0x62, 0x63, 0x80] + Zeros(59) + [24]
  }

  lemma PaddedMessage()
    ensures Pad(ABC) == Block()
  {
    SmallBigEndian();
    assert Zeros(52) + Zeros(7) == Zeros(59);
  }

  lemma SmallBigEndian()
    ensures BigEndian(24, 8) == Zeros(7) + [24]
  {
    assert BigEndian(0, 1) == Zeros(1);
    assert BigEndian(0, 3) == Zeros(3);
    assert BigEndian(0, 5) == Zeros(5);
    assert BigEndian(0, 7) == Zeros(7);
  }

  /** A word is loaded with its first byte on top. */
  lemma LoadedWords()
    ensures LoadWord(0x61, 0x62, 0x63, 0x80) == 0x61626380
    ensures LoadWord(0, 0, 0, 0) == 0 && LoadWord(0, 0, 0, 24) == 24
  {
  }

  // ---------------------------------------------------------------- the schedule

  ghost predicate Scheduled(b: seq<byte>, t: nat, x: bv32) {
    |b| == 64 && t < 64 && Schedule(Words32(), b, t) == x
  }

  /** Eight words of the schedule, from the one numbered `t` on. */
  ghost predicate Words(b: seq<byte>, t: nat, w0: bv32, w1: bv32, w2: bv32, w3: bv32, w4: bv32, w5: bv32, w6: bv32,
        w7: bv32)
  {
    && Scheduled(b, t, w0) && Scheduled(b, t + 1, w1) && Scheduled(b, t + 2, w2) && Scheduled(b, t + 3, w3)
    && Scheduled(b, t + 4, w4) && Scheduled(b, t + 5, w5) && Scheduled(b, t + 6, w6) && Scheduled(b, t + 7, w7)
  }

  lemma FirstWords(b: seq<byte>)
    requires b == Block()
    ensures Words(b, 0, 0x61626380, 0, 0, 0, 0, 0, 0, 0) && Words(b, 8, 0, 0, 0, 0, 0, 0, 0, 24)
  {
    LoadedWords();
    hide LoadWord;
  }

  /** One more schedule word. */
  lemma Extended(b: seq<byte>, t: nat, w2: bv32, w7: bv32, w15: bv32, w16: bv32, x: bv32)
    requires 16 <= t < 64 && Scheduled(b, t - 2, w2) && Scheduled(b, t - 7, w7)
    requires Scheduled(b, t - 15, w15) && Scheduled(b, t - 16, w16) && Extend(w2, w7, w15, w16) == x
    ensures Scheduled(b, t, x)
  {
    hide Extend;
  }

  lemma Words16To23(b: seq<byte>)
    requires Words(b, 0, 0x61626380, 0x00000000, 0x00000000, 0x00000000,
                   0x00000000, 0x00000000, 0x00000000, 0x00000000)
    requires Words(b, 8, 0x00000000, 0x00000000, 0x00000000, 0x00000000,
                   0x00000000, 0x00000000, 0x00000000, 0x00000018)
    ensures Words(b, 16, 0x61626380, 0x000f0000, 0x7da86405, 0x600003c6,
                   0x3e9d7b78, 0x0183fc00, 0x12dcbfdb, 0xe2e2c38e)
  {
    hide Scheduled;
    Extended(b, 16, 0x00000000, 0x00000000, 0x00000000, 0x61626380, 0x61626380);
    Extended(b, 17, 0x00000018, 0x00000000, 0x00000000, 0x00000000, 0x000f0000);
    Extended(b, 18, 0x61626380, 0x00000000, 0x00000000, 0x00000000, 0x7da86405);
    Extended(b, 19, 0x000f0000, 0x00000000, 0x00000000, 0x00000000, 0x600003c6);
    Extended(b, 20, 0x7da86405, 0x00000000, 0x00000000, 0x00000000, 0x3e9d7b78);
    Extended(b, 21, 0x600003c6, 0x00000000, 0x00000000, 0x00000000, 0x0183fc00);
    Extended(b, 22, 0x3e9d7b78, 0x00000018, 0x00000000, 0x00000000, 0x12dcbfdb);
    Extended(b, 23, 0x0183fc00, 0x61626380, 0x00000000, 0x00000000, 0xe2e2c38e);
  }

  lemma Words24To31(b: seq<byte>)
    requires Words(b, 8, 0x00000000, 0x00000000, 0x00000000, 0x00000000,
                   0x00000000, 0x00000000, 0x00000000, 0x00000018)
    requires Words(b, 16, 0x61626380, 0x000f0000, 0x7da86405, 0x600003c6,
                   0x3e9d7b78, 0x0183fc00, 0x12dcbfdb, 0xe2e2c38e)
    ensures Words(b, 24, 0xc8215c1a, 0xb73679a2, 0xe5bc3909, 0x32663c5b,
                   0x9d209d67, 0xec8726cb, 0x702138a4, 0xd3b7973b)
  {
    hide Scheduled;
    Extended(b, 24, 0x12dcbfdb, 0x000f0000, 0x00000000, 0x00000000, 0xc8215c1a);
    Extended(b, 25, 0xe2e2c38e, 0x7da86405, 0x00000000, 0x00000000, 0xb73679a2);
    Extended(b, 26, 0xc8215c1a, 0x600003c6, 0x00000000, 0x00000000, 0xe5bc3909);
    Extended(b, 27, 0xb73679a2, 0x3e9d7b78, 0x00000000, 0x00000000, 0x32663c5b);
    Extended(b, 28, 0xe5bc3909, 0x0183fc00, 0x00000000, 0x00000000, 0x9d209d67);
    Extended(b, 29, 0x32663c5b, 0x12dcbfdb, 0x00000000, 0x00000000, 0xec8726cb);
    Extended(b, 30, 0x9d209d67, 0xe2e2c38e, 0x00000018, 0x00000000, 0x702138a4);
    Extended(b, 31, 0xec8726cb, 0xc8215c1a, 0x61626380, 0x00000018, 0xd3b7973b);
  }

  lemma Words32To39(b: seq<byte>)
    requires Words(b, 16, 0x61626380, 0x000f0000, 0x7da86405, 0x600003c6,
                   0x3e9d7b78, 0x0183fc00, 0x12dcbfdb, 0xe2e2c38e)
    requires Words(b, 24, 0xc8215c1a, 0xb73679a2, 0xe5bc3909, 0x32663c5b,
                   0x9d209d67, 0xec8726cb, 0x702138a4, 0xd3b7973b)
    ensures Words(b, 32, 0x93f5997f, 0x3b68ba73, 0xaff4ffc1, 0xf10a5c62,
                   0x0a8b3996, 0x72af830a, 0x9409e33e, 0x24641522)
  {
    hide Scheduled;
    Extended(b, 32, 0x702138a4, 0xb73679a2, 0x000f0000, 0x61626380, 0x93f5997f);
    Extended(b, 33, 0xd3b7973b, 0xe5bc3909, 0x7da86405, 0x000f0000, 0x3b68ba73);
    Extended(b, 34, 0x93f5997f, 0x32663c5b, 0x600003c6, 0x7da86405, 0xaff4ffc1);
    Extended(b, 35, 0x3b68ba73, 0x9d209d67, 0x3e9d7b78, 0x600003c6, 0xf10a5c62);
    Extended(b, 36, 0xaff4ffc1, 0xec8726cb, 0x0183fc00, 0x3e9d7b78, 0x0a8b3996);
    Extended(b, 37, 0xf10a5c62, 0x702138a4, 0x12dcbfdb, 0x0183fc00, 0x72af830a);
    Extended(b, 38, 0x0a8b3996, 0xd3b7973b, 0xe2e2c38e, 0x12dcbfdb, 0x9409e33e);
    Extended(b, 39, 0x72af830a, 0x93f5997f, 0xc8215c1a, 0xe2e2c38e, 0x24641522);
  }

  lemma Words40To47(b: seq<byte>)
    requires Words(b, 24, 0xc8215c1a, 0xb73679a2, 0xe5bc3909, 0x32663c5b,
                   0x9d209d67, 0xec8726cb, 0x702138a4, 0xd3b7973b)
    requires Words(b, 32, 0x93f5997f, 0x3b68ba73, 0xaff4ffc1, 0xf10a5c62,
                   0x0a8b3996, 0x72af830a, 0x9409e33e, 0x24641522)
    ensures Words(b, 40, 0x9f47bf94, 0xf0a64f5a, 0x3e246a79, 0x27333ba3,
                   0x0c4763f2, 0x840abf27, 0x7a290d5d, 0x065c43da)
  {
    hide Scheduled;
    Extended(b, 40, 0x9409e33e, 0x3b68ba73, 0xb73679a2, 0xc8215c1a, 0x9f47bf94);
    Extended(b, 41, 0x24641522, 0xaff4ffc1, 0xe5bc3909, 0xb73679a2, 0xf0a64f5a);
    Extended(b, 42, 0x9f47bf94, 0xf10a5c62, 0x32663c5b, 0xe5bc3909, 0x3e246a79);
    Extended(b, 43, 0xf0a64f5a, 0x0a8b3996, 0x9d209d67, 0x32663c5b, 0x27333ba3);
    Extended(b, 44, 0x3e246a79, 0x72af830a, 0xec8726cb, 0x9d209d67, 0x0c4763f2);
    Extended(b, 45, 0x27333ba3, 0x9409e33e, 0x702138a4, 0xec8726cb, 0x840abf27);
    Extended(b, 46, 0x0c4763f2, 0x24641522, 0xd3b7973b, 0x702138a4, 0x7a290d5d);
    Extended(b, 47, 0x840abf27, 0x9f47bf94, 0x93f5997f, 0xd3b7973b, 0x065c43da);
  }

  lemma Words48To55(b: seq<byte>)
    requires Words(b, 32, 0x93f5997f, 0x3b68ba73, 0xaff4ffc1, 0xf10a5c62,
                   0x0a8b3996, 0x72af830a, 0x9409e33e, 0x24641522)
    requires Words(b, 40, 0x9f47bf94, 0xf0a64f5a, 0x3e246a79, 0x27333ba3,
                   0x0c4763f2, 0x840abf27, 0x7a290d5d, 0x065c43da)
    ensures Words(b, 48, 0xfb3e89cb, 0xcc7617db, 0xb9e66c34, 0xa9993667,
                   0x84badedd, 0xc21462bc, 0x1487472c, 0xb20f7a99)
  {
    hide Scheduled;
    Extended(b, 48, 0x7a290d5d, 0xf0a64f5a, 0x3b68ba73, 0x93f5997f, 0xfb3e89cb);
    Extended(b, 49, 0x065c43da, 0x3e246a79, 0xaff4ffc1, 0x3b68ba73, 0xcc7617db);
    Extended(b, 50, 0xfb3e89cb, 0x27333ba3, 0xf10a5c62, 0xaff4ffc1, 0xb9e66c34);
    Extended(b, 51, 0xcc7617db, 0x0c4763f2, 0x0a8b3996, 0xf10a5c62, 0xa9993667);
    Extended(b, 52, 0xb9e66c34, 0x840abf27, 0x72af830a, 0x0a8b3996, 0x84badedd);
    Extended(b, 53, 0xa9993667, 0x7a290d5d, 0x9409e33e, 0x72af830a, 0xc21462bc);
    Extended(b, 54, 0x84badedd, 0x065c43da, 0x24641522, 0x9409e33e, 0x1487472c);
    Extended(b, 55, 0xc21462bc, 0xfb3e89cb, 0x9f47bf94, 0x24641522, 0xb20f7a99);
  }

  lemma Words56To63(b: seq<byte>)
    requires Words(b, 40, 0x9f47bf94, 0xf0a64f5a, 0x3e246a79, 0x27333ba3,
                   0x0c4763f2, 0x840abf27, 0x7a290d5d, 0x065c43da)
    requires Words(b, 48, 0xfb3e89cb, 0xcc7617db, 0xb9e66c34, 0xa9993667,
                   0x84badedd, 0xc21462bc, 0x1487472c, 0xb20f7a99)
    ensures Words(b, 56, 0xef57b9cd, 0xebe6b238, 0x9fe3095e, 0x78bc8d4b,
                   0xa43fcf15, 0x668b2ff8, 0xeeaba2cc, 0x12b1edeb)
  {
    hide Scheduled;
    Extended(b, 56, 0x1487472c, 0xcc7617db, 0xf0a64f5a, 0x9f47bf94, 0xef57b9cd);
    Extended(b, 57, 0xb20f7a99, 0xb9e66c34, 0x3e246a79, 0xf0a64f5a, 0xebe6b238);
    Extended(b, 58, 0xef57b9cd, 0xa9993667, 0x27333ba3, 0x3e246a79, 0x9fe3095e);
    Extended(b, 59, 0xebe6b238, 0x84badedd, 0x0c4763f2, 0x27333ba3, 0x78bc8d4b);
    Extended(b, 60, 0x9fe3095e, 0xc21462bc, 0x840abf27, 0x0c4763f2, 0xa43fcf15);
    Extended(b, 61, 0x78bc8d4b, 0x1487472c, 0x7a290d5d, 0x840abf27, 0x668b2ff8);
    Extended(b, 62, 0xa43fcf15, 0xb20f7a99, 0x065c43da, 0x7a290d5d, 0xeeaba2cc);
    Extended(b, 63, 0x668b2ff8, 0xef57b9cd, 0xfb3e89cb, 0x065c43da, 0x12b1edeb);
  }

  // ---------------------------------------------------------------- the rounds

  /** The working words after `n` rounds. */
  ghost predicate At(b: seq<byte>, n: nat, v: seq<bv32>) {
    |b| == 64 && n <= 64 && |v| == 8 && Rounds(Words32(), InitialWords(), b, n) == v
  }

  /** One more round: its new words are `a` and `e`, the others move on. */
  lemma Next(b: seq<byte>, n: nat, v: seq<bv32>, k: bv32, x: bv32, a: bv32, e: bv32) returns (u: seq<bv32>)
    requires n < 64 && At(b, n, v) && Scheduled(b, n, x) && RoundConstants()[n] == k
    requires var t1 := FirstTerm(v[7], v[4], v[5], v[6], k, x);
             a == Sha256.Add(t1, SecondTerm(v[0], v[1], v[2])) && e == Sha256.Add(v[3], t1)
    ensures u == [a, v[0], v[1], v[2], e, v[4], v[5], v[6]] && At(b, n + 1, u)
  {
    hide FirstTerm, SecondTerm, Sha256.Add, RoundConstants, Schedule;
    u := [a, v[0], v[1], v[2], e, v[4], v[5], v[6]];
  }

  lemma Rounds0To7(b: seq<byte>, v: seq<bv32>) returns (u: seq<bv32>)
    requires Words(b, 0, 0x61626380, 0x00000000, 0x00000000, 0x00000000,
                   0x00000000, 0x00000000, 0x00000000, 0x00000000)
    requires At(b, 0, v)
    requires v == [0x6a09e667, 0xbb67ae85, 0x3c6ef372, 0xa54ff53a, 0x510e527f, 0x9b05688c, 0x1f83d9ab, 0x5be0cd19]
    ensures At(b, 8, u)
    ensures u == [0x85a07b5f, 0xe5030380, 0x2b4209f5, 0x04409a6a, 0x0c657a79, 0x9b27a401, 0x714260ad, 0x43ada245]
  {
    Constants0To7();
    hide Scheduled, At, RoundConstants;
    u := v;
    u := Next(b, 0, u, 0x428a2f98, 0x61626380, 0x5d6aebcd, 0xfa2a4622);
    u := Next(b, 1, u, 0x71374491, 0x00000000, 0x5a6ad9ad, 0x78ce7989);
    u := Next(b, 2, u, 0xb5c0fbcf, 0x00000000, 0xc8c347a7, 0xf92939eb);
    u := Next(b, 3, u, 0xe9b5dba5, 0x00000000, 0xd550f666, 0x24e00850);
    u := Next(b, 4, u, 0x3956c25b, 0x00000000, 0x04409a6a, 0x43ada245);
    u := Next(b, 5, u, 0x59f111f1, 0x00000000, 0x2b4209f5, 0x714260ad);
    u := Next(b, 6, u, 0x923f82a4, 0x00000000, 0xe5030380, 0x9b27a401);
    u := Next(b, 7, u, 0xab1c5ed5, 0x00000000, 0x85a07b5f, 0x0c657a79);
  }

  lemma Constants0To7()
    ensures RoundConstants()[0..8] ==
            [0x428a2f98, 0x71374491, 0xb5c0fbcf, 0xe9b5dba5, 0x3956c25b, 0x59f111f1, 0x923f82a4, 0xab1c5ed5]
  {
  }

  lemma Rounds8To15(b: seq<byte>, v: seq<bv32>) returns (u: seq<bv32>)
    requires Words(b, 8, 0x00000000, 0x00000000, 0x00000000, 0x00000000,
                   0x00000000, 0x00000000, 0x00000000, 0x00000018)
    requires At(b, 8, v)
    requires v == [0x85a07b5f, 0xe5030380, 0x2b4209f5, 0x04409a6a, 0x0c657a79, 0x9b27a401, 0x714260ad, 0x43ada245]
    ensures At(b, 16, u)
    ensures u == [0xb0fa238e, 0xc0645fde, 0xd932eb16, 0x87912990, 0x07590dcd, 0x0b92f20c, 0x745a48de, 0x1e578218]
  {
    Constants8To15();
    hide Scheduled, At, RoundConstants;
    u := v;
    u := Next(b, 8, u, 0xd807aa98, 0x00000000, 0x8e04ecb9, 0x32ca2d8c);
    u := Next(b, 9, u, 0x12835b01, 0x00000000, 0x8c87346b, 0x1cc92596);
    u := Next(b, 10, u, 0x243185be, 0x00000000, 0x4798a3f4, 0x436b23e8);
    u := Next(b, 11, u, 0x550c7dc3, 0x00000000, 0xf71fc5a9, 0x816fd6e9);
    u := Next(b, 12, u, 0x72be5d74, 0x00000000, 0x87912990, 0x1e578218);
    u := Next(b, 13, u, 0x80deb1fe, 0x00000000, 0xd932eb16, 0x745a48de);
    u := Next(b, 14, u, 0x9bdc06a7, 0x00000000, 0xc0645fde, 0x0b92f20c);
    u := Next(b, 15, u, 0xc19bf174, 0x00000018, 0xb0fa238e, 0x07590dcd);
  }

  lemma Constants8To15()
    ensures RoundConstants()[8..16] ==
            [0xd807aa98, 0x12835b01, 0x243185be, 0x550c7dc3, 0x72be5d74, 0x80deb1fe, 0x9bdc06a7, 0xc19bf174]
  {
  }

  lemma Rounds16To23(b: seq<byte>, v: seq<bv32>) returns (u: seq<bv32>)
    requires Words(b, 16, 0x61626380, 0x000f0000, 0x7da86405, 0x600003c6,
                   0x3e9d7b78, 0x0183fc00, 0x12dcbfdb, 0xe2e2c38e)
    requires At(b, 16, v)
    requires v == [0xb0fa238e, 0xc0645fde, 0xd932eb16, 0x87912990, 0x07590dcd, 0x0b92f20c, 0x745a48de, 0x1e578218]
    ensures At(b, 24, u)
    ensures u == [0xc5d53d8d, 0xa7a3623f, 0xc2606d6d, 0x9dc68b63, 0xaa47c347, 0x49f5114a, 0xe1257970, 0x8ada8930]
  {
    Constants16To23();
    hide Scheduled, At, RoundConstants;
    u := v;
    u := Next(b, 16, u, 0xe49b69c1, 0x61626380, 0x21da9a9b, 0x8034229c);
    u := Next(b, 17, u, 0xefbe4786, 0x000f0000, 0xc2fbd9d1, 0x846ee454);
    u := Next(b, 18, u, 0x0fc19dc6, 0x7da86405, 0xfe777bbf, 0xcc899961);
    u := Next(b, 19, u, 0x240ca1cc, 0x600003c6, 0xe1f20c33, 0xb0638179);
    u := Next(b, 20, u, 0x2de92c6f, 0x3e9d7b78, 0x9dc68b63, 0x8ada8930);
    u := Next(b, 21, u, 0x4a7484aa, 0x0183fc00, 0xc2606d6d, 0xe1257970);
    u := Next(b, 22, u, 0x5cb0a9dc, 0x12dcbfdb, 0xa7a3623f, 0x49f5114a);
    u := Next(b, 23, u, 0x76f988da, 0xe2e2c38e, 0xc5d53d8d, 0xaa47c347);
  }

  lemma Constants16To23()
    ensures RoundConstants()[16..24] ==
            [0xe49b69c1, 0xefbe4786, 0x0fc19dc6, 0x240ca1cc, 0x2de92c6f, 0x4a7484aa, 0x5cb0a9dc, 0x76f988da]
  {
  }

  lemma Rounds24To31(b: seq<byte>, v: seq<bv32>) returns (u: seq<bv32>)
    requires Words(b, 24, 0xc8215c1a, 0xb73679a2, 0xe5bc3909, 0x32663c5b,
                   0x9d209d67, 0xec8726cb, 0x702138a4, 0xd3b7973b)
    requires At(b, 24, v)
    requires v == [0xc5d53d8d, 0xa7a3623f, 0xc2606d6d, 0x9dc68b63, 0xaa47c347, 0x49f5114a, 0xe1257970, 0x8ada8930]
    ensures At(b, 32, u)
    ensures u == [0x73b33bf5, 0xea992a22, 0xa0060b30, 0x363482c9, 0xba591112, 0x0109ab3a, 0xade79437, 0x6112a3b7]
  {
    Constants24To31();
    hide Scheduled, At, RoundConstants;
    u := v;
    u := Next(b, 24, u, 0x983e5152, 0xc8215c1a, 0x1c2c2838, 0x2823ef91);
    u := Next(b, 25, u, 0xa831c66d, 0xb73679a2, 0xcde8037d, 0x14383d8e);
    u := Next(b, 26, u, 0xb00327c8, 0xe5bc3909, 0xb62ec4bc, 0xc74c6516);
    u := Next(b, 27, u, 0xbf597fc7, 0x32663c5b, 0x77d37528, 0xedffbff8);
    u := Next(b, 28, u, 0xc6e00bf3, 0x9d209d67, 0x363482c9, 0x6112a3b7);
    u := Next(b, 29, u, 0xd5a79147, 0xec8726cb, 0xa0060b30, 0xade79437);
    u := Next(b, 30, u, 0x06ca6351, 0x702138a4, 0xea992a22, 0x0109ab3a);
    u := Next(b, 31, u, 0x14292967, 0xd3b7973b, 0x73b33bf5, 0xba591112);
  }

  lemma Constants24To31()
    ensures RoundConstants()[24..32] ==
            [0x983e5152, 0xa831c66d, 0xb00327c8, 0xbf597fc7, 0xc6e00bf3, 0xd5a79147, 0x06ca6351, 0x14292967]
  {
  }

  lemma Rounds32To39(b: seq<byte>, v: seq<bv32>) returns (u: seq<bv32>)
    requires Words(b, 32, 0x93f5997f, 0x3b68ba73, 0xaff4ffc1, 0xf10a5c62,
                   0x0a8b3996, 0x72af830a, 0x9409e33e, 0x24641522)
    requires At(b, 32, v)
    requires v == [0x73b33bf5, 0xea992a22, 0xa0060b30, 0x363482c9, 0xba591112, 0x0109ab3a, 0xade79437, 0x6112a3b7]
    ensures At(b, 40, u)
    ensures u == [0x79ea687a, 0x6dc57a8a, 0x34df1604, 0x41a65cb1, 0x1efbc0a0, 0xf0781bc8, 0xa507a53d, 0x0772a26b]
  {
    Constants32To39();
    hide Scheduled, At, RoundConstants;
    u := v;
    u := Next(b, 32, u, 0x27b70a85, 0x93f5997f, 0x98e12507, 0x9cd9f5f6);
    u := Next(b, 33, u, 0x2e1b2138, 0x3b68ba73, 0xfe604df5, 0x59249dd3);
    u := Next(b, 34, u, 0x4d2c6dfc, 0xaff4ffc1, 0xa9a7738c, 0x085f3833);
    u := Next(b, 35, u, 0x53380d13, 0xf10a5c62, 0x65a0cfe4, 0xf4b002d6);
    u := Next(b, 36, u, 0x650a7354, 0x0a8b3996, 0x41a65cb1, 0x0772a26b);
    u := Next(b, 37, u, 0x766a0abb, 0x72af830a, 0x34df1604, 0xa507a53d);
    u := Next(b, 38, u, 0x81c2c92e, 0x9409e33e, 0x6dc57a8a, 0xf0781bc8);
    u := Next(b, 39, u, 0x92722c85, 0x24641522, 0x79ea687a, 0x1efbc0a0);
  }

  lemma Constants32To39()
    ensures RoundConstants()[32..40] ==
            [0x27b70a85, 0x2e1b2138, 0x4d2c6dfc, 0x53380d13, 0x650a7354, 0x766a0abb, 0x81c2c92e, 0x92722c85]
  {
  }

  lemma Rounds40To47(b: seq<byte>, v: seq<bv32>) returns (u: seq<bv32>)
    requires Words(b, 40, 0x9f47bf94, 0xf0a64f5a, 0x3e246a79, 0x27333ba3,
                   0x0c4763f2, 0x840abf27, 0x7a290d5d, 0x065c43da)
    requires At(b, 40, v)
    requires v == [0x79ea687a, 0x6dc57a8a, 0x34df1604, 0x41a65cb1, 0x1efbc0a0, 0xf0781bc8, 0xa507a53d, 0x0772a26b]
    ensures At(b, 48, u)
    ensures u == [0x4172328d, 0xa14c14b0, 0x72ab4b91, 0x26628815, 0xfecf0bc6, 0xd57b94a9, 0xb7755da1, 0xa80f11f0]
  {
    Constants40To47();
    hide Scheduled, At, RoundConstants;
    u := v;
    u := Next(b, 40, u, 0xa2bfe8a1, 0x9f47bf94, 0xd6670766, 0x26352d63);
    u := Next(b, 41, u, 0xa81a664b, 0xf0a64f5a, 0xdf46652f, 0x838b2711);
    u := Next(b, 42, u, 0xc24b8b70, 0x3e246a79, 0x17aa0dfe, 0xdecd4715);
    u := Next(b, 43, u, 0xc76c51a3, 0x27333ba3, 0x9d4baf93, 0xfda24c2e);
    u := Next(b, 44, u, 0xd192e819, 0x0c4763f2, 0x26628815, 0xa80f11f0);
    u := Next(b, 45, u, 0xd6990624, 0x840abf27, 0x72ab4b91, 0xb7755da1);
    u := Next(b, 46, u, 0xf40e3585, 0x7a290d5d, 0xa14c14b0, 0xd57b94a9);
    u := Next(b, 47, u, 0x106aa070, 0x065c43da, 0x4172328d, 0xfecf0bc6);
  }

  lemma Constants40To47()
    ensures RoundConstants()[40..48] ==
            [0xa2bfe8a1, 0xa81a664b, 0xc24b8b70, 0xc76c51a3, 0xd192e819, 0xd6990624, 0xf40e3585, 0x106aa070]
  {
  }

  lemma Rounds48To55(b: seq<byte>, v: seq<bv32>) returns (u: seq<bv32>)
    requires Words(b, 48, 0xfb3e89cb, 0xcc7617db, 0xb9e66c34, 0xa9993667,
                   0x84badedd, 0xc21462bc, 0x1487472c, 0xb20f7a99)
    requires At(b, 48, v)
    requires v == [0x4172328d, 0xa14c14b0, 0x72ab4b91, 0x26628815, 0xfecf0bc6, 0xd57b94a9, 0xb7755da1, 0xa80f11f0]
    ensures At(b, 56, u)
    ensures u == [0x38cc9913, 0x3ec45cdb, 0xf5702fdb, 0x101fd28f, 0x54cb266b, 0xe50e1b4f, 0x9f4787c3, 0x529e7d00]
  {
    Constants48To55();
    hide Scheduled, At, RoundConstants;
    u := v;
    u := Next(b, 48, u, 0x19a4c116, 0xfb3e89cb, 0x05757ceb, 0xbd714038);
    u := Next(b, 49, u, 0x1e376c08, 0xcc7617db, 0xf11bfaa8, 0x6e5c390c);
    u := Next(b, 50, u, 0x2748774c, 0xb9e66c34, 0x7a0508a1, 0x52f1ccf7);
    u := Next(b, 51, u, 0x34b0bcb5, 0xa9993667, 0x886e7a22, 0x49231c1e);
    u := Next(b, 52, u, 0x391c0cb3, 0x84badedd, 0x101fd28f, 0x529e7d00);
    u := Next(b, 53, u, 0x4ed8aa4a, 0xc21462bc, 0xf5702fdb, 0x9f4787c3);
    u := Next(b, 54, u, 0x5b9cca4f, 0x1487472c, 0x3ec45cdb, 0xe50e1b4f);
    u := Next(b, 55, u, 0x682e6ff3, 0xb20f7a99, 0x38cc9913, 0x54cb266b);
  }

  lemma Constants48To55()
    ensures RoundConstants()[48..56] ==
            [0x19a4c116, 0x1e376c08, 0x2748774c, 0x34b0bcb5, 0x391c0cb3, 0x4ed8aa4a, 0x5b9cca4f, 0x682e6ff3]
  {
  }

  lemma Rounds56To63(b: seq<byte>, v: seq<bv32>) returns (u: seq<bv32>)
    requires Words(b, 56, 0xef57b9cd, 0xebe6b238, 0x9fe3095e, 0x78bc8d4b,
                   0xa43fcf15, 0x668b2ff8, 0xeeaba2cc, 0x12b1edeb)
    requires At(b, 56, v)
    requires v == [0x38cc9913, 0x3ec45cdb, 0xf5702fdb, 0x101fd28f, 0x54cb266b, 0xe50e1b4f, 0x9f4787c3, 0x529e7d00]
    ensures At(b, 64, u)
    ensures u == [0x506e3058, 0xd39a2165, 0x04d24d6c, 0xb85e2ce9, 0x5ef50f24, 0xfb121210, 0x948d25b6, 0x961f4894]
  {
    Constants56To63();
    hide Scheduled, At, RoundConstants;
    u := v;
    u := Next(b, 56, u, 0x748f82ee, 0xef57b9cd, 0xfcd1887b, 0x9b5e906c);
    u := Next(b, 57, u, 0x78a5636f, 0xebe6b238, 0xc062d46f, 0x7e44008e);
    u := Next(b, 58, u, 0x84c87814, 0x9fe3095e, 0xffb70472, 0x6d83bfc6);
    u := Next(b, 59, u, 0x8cc70208, 0x78bc8d4b, 0xb6ae8fff, 0xb21bad3d);
    u := Next(b, 60, u, 0x90befffa, 0xa43fcf15, 0xb85e2ce9, 0x961f4894);
    u := Next(b, 61, u, 0xa4506ceb, 0x668b2ff8, 0x04d24d6c, 0x948d25b6);
    u := Next(b, 62, u, 0xbef9a3f7, 0xeeaba2cc, 0xd39a2165, 0xfb121210);
    u := Next(b, 63, u, 0xc67178f2, 0x12b1edeb, 0x506e3058, 0x5ef50f24);
  }

  lemma Constants56To63()
    ensures RoundConstants()[56..64] ==
            [0x748f82ee, 0x78a5636f, 0x84c87814, 0x8cc70208, 0x90befffa, 0xa4506ceb, 0xbef9a3f7, 0xc67178f2]
  {
  }

  lemma AllRounds(b: seq<byte>) returns (v: seq<bv32>)
    requires b == Block()
    ensures At(b, 64, v)
    ensures v == [0x506e3058, 0xd39a2165, 0x04d24d6c, 0xb85e2ce9, 0x5ef50f24, 0xfb121210, 0x948d25b6, 0x961f4894]
  {
    FirstWords(b);
    v := InitialWords();
    assert At(b, 0, v);
    hide At, Words;
    v := Rounds0To7(b, v);
    v := Rounds8To15(b, v);
    Words16To23(b);
    v := Rounds16To23(b, v);
    Words24To31(b);
    v := Rounds24To31(b, v);
    Words32To39(b);
    v := Rounds32To39(b, v);
    Words40To47(b);
    v := Rounds40To47(b, v);
    Words48To55(b);
    v := Rounds48To55(b, v);
    Words56To63(b);
    v := Rounds56To63(b, v);
  }

  // ---------------------------------------------------------------- the digest

  function Chained(): (h: seq<bv32>)
    ensures |h| == 8
  {
    [0xba7816bf, 0x8f01cfea, 0x414140de, 0x5dae2223, 0xb00361a3, 0x96177a9c, 0xb410ff61, 0xf20015ad]
  }

  lemma Additions(v: seq<bv32>)
    requires v == [0x506e3058, 0xd39a2165, 0x04d24d6c, 0xb85e2ce9, 0x5ef50f24, 0xfb121210, 0x948d25b6, 0x961f4894]
    ensures forall i :: 0 <= i < 8 ==> Sha256.Add(InitialWords()[i], v[i]) == Chained()[i]
  {
    var h, c := InitialWords(), Chained();
    assert h[0] + v[0] == c[0] && h[1] + v[1] == c[1] && h[2] + v[2] == c[2] && h[3] + v[3] == c[3];
    assert h[4] + v[4] == c[4] && h[5] + v[5] == c[5] && h[6] + v[6] == c[6] && h[7] + v[7] == c[7];
  }

  lemma FinalAddition(b: seq<byte>)
    requires b == Block()
    ensures Compress(Words32(), InitialWords(), b) == Chained()
  {
    var v := AllRounds(b);
    Additions(v);
    hide Rounds, Sha256.Add, InitialWords, Chained;
    forall i | 0 <= i < 8
      ensures Compress(Words32(), InitialWords(), b)[i] == Chained()[i]
    {
      assert Compress(Words32(), InitialWords(), b)[i] == Sha256.Add(InitialWords()[i], v[i]);
    }
  }

  function Published(): (d: seq<byte>)
    ensures |d| == 32
  {
    [0xba, 0x78, 0x16, 0xbf, 0x8f, 0x01, 0xcf, 0xea]
    + [0x41, 0x41, 0x40, 0xde, 0x5d, 0xae, 0x22, 0x23]
    + [0xb0, 0x03, 0x61, 0xa3, 0x96, 0x17, 0x7a, 0x9c]
    + [0xb4, 0x10, 0xff, 0x61, 0xf2, 0x00, 0x15, 0xad]
  }

  /** A word is stored with its top byte first. */
  lemma StoredWords()
    ensures forall i :: 0 <= i < 8 ==> StoreWord(Chained()[i]) == Published()[4 * i..4 * i + 4]
  {
  }

  /** The digest of "abc" is the published one. */
  lemma DigestOfAbc()
    ensures Hash(ABC) == Published()
  {
    PaddedMessage();
    var b := Block();
    FinalAddition(b);
    StoredWords();
    OneBlock(b);
    hide Compress, Block, Chained, Published, StoreWord, InitialWords, Pad;
    BytesOfWords(Chained(), Published());
  }

  lemma OneBlock(b: seq<byte>)
    requires |b| == 64
    ensures Absorb(Words32(), b) == Compress(Words32(), InitialWords(), b)
  {
    assert b[..0] == [] && b[0..] == b;
  }

  lemma BytesOfWords(h: seq<bv32>, d: seq<byte>)
    requires |h| == 8 && |d| == 32 && forall i :: 0 <= i < 8 ==> StoreWord(h[i]) == d[4 * i..4 * i + 4]
    ensures WordsBytes(Words32(), h, 8) == d
  {
    hide StoreWord;
    BytesOfPrefix(h, d, 8);
    assert d[..32] == d;
  }

  lemma {:induction false} BytesOfPrefix(h: seq<bv32>, d: seq<byte>, n: nat)
    requires n <= |h| == 8 && |d| == 32 && forall i :: 0 <= i < 8 ==> StoreWord(h[i]) == d[4 * i..4 * i + 4]
    ensures WordsBytes(Words32(), h, n) == d[..4 * n]
  {
    hide StoreWord;
    if n > 0 {
      BytesOfPrefix(h, d, n - 1);
      assert d[..4 * n] == d[..4 * (n - 1)] + d[4 * (n - 1)..4 * n];
    }
  }
}
