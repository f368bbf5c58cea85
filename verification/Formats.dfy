/**
 The bytes themselves: where every field of a packet, a state and a journal record stands and in which order its
 bytes come, what older versions mean, and the alphabets of the two text encodings. Round trips alone would allow
 any other layout that is written and read alike.
 */
module Formats {
  import opened Bytes
  import opened CacheTable
  import opened Recovery
  import opened Packet
  import opened Codec
  import Base64
  import Clients
  import Files
  import Hex

  // ---------------------------------------------------------------- numbers

  lemma DivideTwice(n: nat, p: nat)
    requires p > 0
    ensures n / 256 / p == n / (256 * p)
  {
    var a, q := n / 256, n / (256 * p);
    var rest := n - 256 * p * q;
    assert 0 <= rest < 256 * p;
    assert n == 256 * (p * q) + rest;
    assert a == p * q + rest / 256;
    assert 0 <= rest / 256 < p;
    QuotientOf(p, q, rest / 256);
  }

  lemma QuotientOf(p: nat, q: nat, r: nat)
    requires r < p
    ensures (p * q + r) / p == q
  {
    var n := p * q + r;
    var x := n / p - q;
    assert p * x == r - n % p;
    assert x >= 1 ==> p * x >= p;
    assert x <= -1 ==> p * x <= p * -1;
  }

  /** Big-endian: byte `i` counts the powers of 256 that are `width - 1 - i` places up. */
  lemma {:induction false} BigEndianByte(n: nat, width: nat, i: nat)
    requires i < width
    ensures Pow256(width - 1 - i) > 0 && BigEndian(n, width)[i] == n / Pow256(width - 1 - i) % 256
  {
    if i < width - 1 {
      BigEndianByte(n / 256, width - 1, i);
      DivideTwice(n, Pow256(width - 2 - i));
    }
  }

  /** A 32-bit number is stored with its top byte first. */
  lemma U32Bytes(n: nat)
    requires n < TWO_32
    ensures U32(n) == [n / 0x100_0000, n / 0x1_0000 % 0x100, n / 0x100 % 0x100, n % 0x100]
  {
    var s := BigEndian(n, 4);
    assert Pow256(0) == 1 && Pow256(1) == 0x100 && Pow256(2) == 0x1_0000 && Pow256(3) == 0x100_0000;
    BigEndianByte(n, 4, 0);
    BigEndianByte(n, 4, 1);
    BigEndianByte(n, 4, 2);
    BigEndianByte(n, 4, 3);
    hide BigEndian;
    assert n / 0x100_0000 < 256;
  }

  function Quotient(n: nat, p: nat): nat
    requires p > 0
  {
    n / p
  }

  /** Exclusive-or adds bits without carrying. */
  lemma {:induction false} XorAddsBits(a: nat, b: nat, bits: nat, j: nat)
    requires j < bits
    ensures Quotient(XorBits(a, b, bits), Pow2(j)) % 2 == (Quotient(a, Pow2(j)) + Quotient(b, Pow2(j))) % 2
  {
    var low, rest := (a + b) % 2, XorBits(a / 2, b / 2, bits - 1);
    var x := low + 2 * rest;
    assert XorBits(a, b, bits) == x && x / 2 == rest && x % 2 == low;
    if j > 0 {
      var p := Pow2(j - 1);
      assert Pow2(j) == 2 * p;
      XorAddsBits(a / 2, b / 2, bits - 1, j - 1);
      HalveTwice(x, p);
      HalveTwice(a, p);
      HalveTwice(b, p);
      hide XorBits, Pow2, Quotient;
    }
  }

  lemma HalveTwice(n: nat, p: nat)
    requires p > 0
    ensures Quotient(n / 2, p) == Quotient(n, 2 * p)
  {
    var a, q := n / 2, n / (2 * p);
    var rest := n - 2 * p * q;
    assert 0 <= rest < 2 * p;
    assert n == 2 * (p * q) + rest;
    assert a == p * q + rest / 2;
    assert 0 <= rest / 2 < p;
    QuotientOf(p, q, rest / 2);
  }

  // ---------------------------------------------------------------- packets

  /**
   A packet, byte by byte: magic, version, length, nonce, a tag over those 32 bytes and the ciphertext, and the
   payload with one 32-byte block of the key stream after the other added to it.
   */
  lemma PacketBytes(mac: Mac, magic: seq<byte>, nonce: seq<byte>, payload: seq<byte>, i: nat)
    requires |magic| == 8 && |nonce| == 16 && |payload| < TWO_32
    ensures var p := Seal(mac, magic, nonce, payload);
            var n := |payload|;
            && |p| == 64 + n && p[..8] == magic && p[8..12] == [0, 0, 0, 1]
            && p[12..16] == [n / 0x100_0000, n / 0x1_0000 % 0x100, n / 0x100 % 0x100, n % 0x100]
            && p[16..32] == nonce && p[32..64] == Tag(mac, p[..32] + p[64..])
            && (i < n ==> p[64 + i] == Xor(payload[i], Tag(mac, nonce + BigEndian(i / 32, 8))[i % 32]))
  {
    U32Bytes(|payload|);
    SealLayout(mac, magic, nonce, payload, []);
    assert Seal(mac, magic, nonce, payload) + [] == Seal(mac, magic, nonce, payload);
  }

  /** Reading takes exactly what carries the magic, the version byte, a length within bounds and the right tag. */
  lemma PacketReadExactlyWhen(mac: Mac, max: nat, magic: seq<byte>, bytes: seq<byte>)
    requires |magic| == 8
    ensures Open(mac, max, magic, bytes) == Eof <==> bytes == []
    ensures Open(mac, max, magic, bytes).Packet? <==>
              && |bytes| >= 64 && bytes[..8] == magic && bytes[11] == 1
              && var n := Four(bytes[12], bytes[13], bytes[14], bytes[15]);
                 n <= max && 64 + n <= |bytes| && Tag(mac, bytes[..32] + bytes[64..64 + n]) == bytes[32..64]
  {
    hide Tag, XorStream;
    if |bytes| >= 64 {
      FourByteNumber(bytes[12..16]);
    }
  }

  function Four(a: nat, b: nat, c: nat, d: nat): nat {
    a * 0x100_0000 + b * 0x1_0000 + c * 0x100 + d
  }

  lemma FourByteNumber(s: seq<byte>)
    requires |s| == 4
    ensures FromBigEndian(s) == Four(s[0], s[1], s[2], s[3])
  {
    assert s[..3][..2] == s[..2] && s[..2][..1] == s[..1] && s[..1][..0] == [];
    assert FromBigEndian(s[..1]) == s[0];
    assert FromBigEndian(s[..2]) == Four(0, 0, s[0], s[1]);
    assert FromBigEndian(s[..3]) == Four(0, s[0], s[1], s[2]);
  }

  function Ascii(text: string): seq<byte>
    requires forall i :: 0 <= i < |text| ==> text[i] < 128 as char
  {
    seq(|text|, i requires 0 <= i < |text| => text[i] as byte)
  }

  /** The three kinds of file, told apart by their first eight bytes, and the bound on a packet. */
  lemma Magics()
    ensures Files.STATE_MAGIC == Ascii("MPCSTAT1") && Files.EXPORT_MAGIC == Ascii("MPCEXPT1")
    ensures Files.JOURNAL_MAGIC == Ascii("MPCJNL1") + [0]
    ensures forall l: Limits :: Files.MaxPacket(l) == l.memory + 16 * 1024 * 1024
  {
  }

  /** An empty file counts as a missing one. */
  lemma EmptyFilesAreMissing(mac: Mac, max: nat, l: Limits, files: Files.Files, t: int)
    ensures files.checkpoint == Some([]) ==>
              Files.LoadFiles(mac, max, l, files, t) == Files.LoadFiles(mac, max, l, files.(checkpoint := None), t)
    ensures files.journal == Some([]) ==>
              Files.LoadFiles(mac, max, l, files, t) == Files.LoadFiles(mac, max, l, files.(journal := None), t)
  {
    hide Replay;
    assert Files.ParseRecords([]) == Some([]);
  }

  // ---------------------------------------------------------------- records and states

  function Number(n: nat): seq<byte>
    requires n < 256
  {
    [0, 0, 0, n]
  }

  lemma SmallNumbers(n: nat)
    requires n < 256
    ensures U32(n) == Number(n)
  {
    U32Bytes(n);
  }

  function EntryBytes(k: Key, v: seq<byte>, e: int): seq<byte> {
    U32(|k|) + (U32(|v|) + (U64(e) + (k + v)))
  }

  function ClientBytes(c: Clients.Client): seq<byte> {
    U32(|c.id|) + (U32(c.role) + ((if c.active then Number(1) else Number(0)) + (c.hash + c.id)))
  }

  /** Journal records: version 2, the operation's number, the time, and the fields of the operation in order. */
  lemma RecordBytes(k: Key, v: seq<byte>, e: int, c: Clients.Client, now: int)
    ensures EncodeRecord(Set(k, v, e), now) == Number(2) + (Number(1) + (U64(now) + EntryBytes(k, v, e)))
    ensures EncodeRecord(Remove(k), now) == Number(2) + (Number(2) + (U64(now) + (U32(|k|) + k)))
    ensures EncodeRecord(Upsert(c), now) == Number(2) + (Number(3) + (U64(now) + ClientBytes(c)))
    ensures EncodeRecord(PurgeAll, now) == Number(2) + (Number(4) + (U64(now) + []))
  {
    SmallNumbers(0);
    SmallNumbers(1);
    SmallNumbers(2);
    SmallNumbers(3);
    SmallNumbers(4);
    hide U32, U64, Number;
  }

  /** States: version 2, the time, the number of entries and the entries, the number of clients and the clients. */
  lemma StateBytes(k: Key, e: Entry, c: Clients.Client, now: int)
    ensures EncodeImage(Image([(k, e)], [c]), now) ==
            Number(2) + (U64(now) + (Number(1) + (EntryBytes(k, e.value, e.expires) + (Number(1) + ClientBytes(c)))))
  {
    SmallNumbers(0);
    SmallNumbers(1);
    SmallNumbers(2);
    OneEncoded(EncodeListed, (k, e));
    OneEncoded(EncodeClient, c);
    hide U32, U64, Number, EncodeMany;
  }

  lemma OneEncoded<T>(encode: T -> seq<byte>, v: T)
    ensures EncodeMany(encode, [v]) == encode(v)
  {
    assert [v][1..] == [];
  }

  /** Version 1 of a client record has no activity flag: the client is active. Other versions are refused. */
  lemma OldRecordsAreActive(id: seq<byte>, role: nat, hash: seq<byte>, now: int)
    requires 0 < |id| < 64 && |hash| == 32 && role < TWO_32 && forall i :: 0 <= i < |id| ==> id[i] != 0
    ensures ParseRecord(Number(1) + (Number(3) + (U64(now) + (U32(|id|) + (U32(role) + (hash + id)))))) ==
            Some(Upsert(Clients.Client(id, role, true, hash)))
  {
    SmallNumbers(1);
    SmallNumbers(3);
    var client := U32(|id|) + (U32(role) + (hash + id));
    TakenU32(1, Number(3) + (U64(now) + client));
    TakenU32(3, U64(now) + client);
    assert TakeU64(U64(now) + client).Got? && TakeU64(U64(now) + client).rest == client;
    OldClientReads(id, role, hash);
    hide U32, U64, TakeU32, TakeU64, ParseClient, Number;
  }

  lemma OldClientReads(id: seq<byte>, role: nat, hash: seq<byte>)
    requires 0 < |id| < 64 && |hash| == 32 && role < TWO_32 && forall i :: 0 <= i < |id| ==> id[i] != 0
    ensures ParseClient(U32(|id|) + (U32(role) + (hash + id)), 1) == Got(Clients.Client(id, role, true, hash), [])
  {
    TakenU32(|id|, U32(role) + (hash + id));
    TakenU32(role, hash + id);
    assert (hash + id)[..32] == hash && (hash + id)[32..] == id;
    assert id[..|id|] == id && id[|id|..] == [];
    NoNulToCutAt(id);
    hide U32, TakeU32, UpToNul;
  }

  lemma OtherVersionsAreRefused(s: seq<byte>)
    requires |s| >= 4 && FromBigEndian(s[..4]) !in {1, 2}
    ensures ParseRecord(s) == None && ParseImage(s) == None
  {
  }

  // ---------------------------------------------------------------- text

  const BASE64_DIGITS: string :=
    "ABCDEFGHIJKLM" + "NOPQRSTUVWXYZ" + "abcdefghijklm" + "nopqrstuvwxyz" + "0123456789" + "+/"
  const HEX_DIGITS: string := "0123456789abcdef"

  /** Table 1 of RFC 4648. */
  lemma Base64Alphabet(v: nat)
    requires v < 64
    ensures Base64.Digit(v) == BASE64_DIGITS[v]
  {
    if v < 13 {
      assert BASE64_DIGITS[v] == "ABCDEFGHIJKLM"[v];
    } else if v < 26 {
      assert BASE64_DIGITS[v] == "NOPQRSTUVWXYZ"[v - 13];
    } else if v < 39 {
      assert BASE64_DIGITS[v] == "abcdefghijklm"[v - 26];
    } else if v < 52 {
      assert BASE64_DIGITS[v] == "nopqrstuvwxyz"[v - 39];
    } else if v < 62 {
      assert BASE64_DIGITS[v] == "0123456789"[v - 52];
    }
  }

  /** Section 8 of RFC 4648, in lower case. */
  lemma HexAlphabet(v: nat)
    requires v < 16
    ensures Hex.Digit(v) == HEX_DIGITS[v]
  {
  }

  lemma FirstGroups()
    ensures Base64.EncodeGroup([102]) == "Zg==" && Base64.EncodeGroup([102, 111]) == "Zm8="
    ensures Base64.EncodeGroup([102, 111, 111]) == "Zm9v"
  {
    assert Base64.Chunk([102]) == 0x66_0000 && Base64.Chunk([102, 111]) == 0x66_6f00;
    assert Base64.Chunk([102, 111, 111]) == 0x66_6f6f;
    hide Base64.Chunk;
  }

  lemma SecondGroups()
    ensures Base64.EncodeGroup([98]) == "Yg==" && Base64.EncodeGroup([98, 97]) == "YmE="
    ensures Base64.EncodeGroup([98, 97, 114]) == "YmFy"
  {
    assert Base64.Chunk([98]) == 0x62_0000 && Base64.Chunk([98, 97]) == 0x62_6100;
    assert Base64.Chunk([98, 97, 114]) == 0x62_6172;
    hide Base64.Chunk;
  }

  /** The order of the bits: the examples of section 10 of RFC 4648, for "f" to "foobar". */
  lemma PublishedTexts()
    ensures Base64.Encode([102]) == "Zg==" && Base64.Encode([102, 111]) == "Zm8="
    ensures Base64.Encode([102, 111, 111]) == "Zm9v" && Base64.Encode([102, 111, 111, 98]) == "Zm9v" + "Yg=="
    ensures Base64.Encode([102, 111, 111, 98, 97]) == "Zm9v" + "YmE="
    ensures Base64.Encode([102, 111, 111, 98, 97, 114]) == "Zm9v" + "YmFy"
  {
    FirstGroups();
    SecondGroups();
    hide Base64.EncodeGroup;
    OneGroup([102]);
    OneGroup([102, 111]);
    OneGroup([98]);
    OneGroup([98, 97]);
    OneGroup([98, 97, 114]);
    OneGroup([102, 111, 111]);
    assert [102, 111, 111] + [98] == [102, 111, 111, 98];
    assert [102, 111, 111] + [98, 97] == [102, 111, 111, 98, 97];
    assert [102, 111, 111] + [98, 97, 114] == [102, 111, 111, 98, 97, 114];
    TwoGroups([102, 111, 111], [98]);
    TwoGroups([102, 111, 111], [98, 97]);
    TwoGroups([102, 111, 111], [98, 97, 114]);
  }

  lemma OneGroup(b: seq<byte>)
    requires 1 <= |b| <= 3
    ensures Base64.Encode(b) == Base64.EncodeGroup(b)
  {
    assert b[..|b|] == b && b[|b|..] == [];
  }

  lemma TwoGroups(a: seq<byte>, b: seq<byte>)
    requires |a| == 3 && 1 <= |b| <= 3
    ensures Base64.Encode(a + b) == Base64.EncodeGroup(a) + Base64.EncodeGroup(b)
  {
    assert (a + b)[..3] == a && (a + b)[3..] == b;
    OneGroup(b);
  }
}
