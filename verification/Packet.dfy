/**
 The on-disk packet envelope: magic, version, length and nonce, an authentication tag over those and
 the ciphertext, and the payload exclusive-ored with a counter-mode key stream. The keyed hash is a
 parameter here; Crypto supplies HMAC-SHA-256 for it.
 */
module Packet {
  import opened Bytes

  const HEADER_SIZE: nat := 64
  const TAG_OFFSET: nat := 32
  const TAG_SIZE: nat := 32
  const NONCE_SIZE: nat := 16

  type Mac = seq<byte> -> seq<byte>

  /** The 32-byte tag of a message. */
  function Tag(mac: Mac, m: seq<byte>): (t: seq<byte>)
    ensures |t| == TAG_SIZE
  {
    if |mac(m)| == TAG_SIZE then mac(m) else Zeros(TAG_SIZE)
  }

  /** Byte `i` of the key stream: block `i / 32` is the tag of the nonce and the block number. */
  function Keystream(mac: Mac, nonce: seq<byte>, i: nat): byte {
    Tag(mac, nonce + BigEndian(i / 32, 8))[i % 32]
  }

  function XorStream(mac: Mac, nonce: seq<byte>, text: seq<byte>): (s: seq<byte>)
    ensures |s| == |text|
  {
    seq(|text|, i requires 0 <= i < |text| => Xor(text[i], Keystream(mac, nonce, i)))
  }

  lemma XorStreamInvolutive(mac: Mac, nonce: seq<byte>, text: seq<byte>)
    ensures XorStream(mac, nonce, XorStream(mac, nonce, text)) == text
  {
    var once := XorStream(mac, nonce, text);
    var twice := XorStream(mac, nonce, once);
    forall i | 0 <= i < |text|
      ensures twice[i] == text[i]
    {
      XorInvolutive(text[i], Keystream(mac, nonce, i));
    }
  }

  function Header(magic: seq<byte>, nonce: seq<byte>, length: nat): (h: seq<byte>)
    requires |magic| == 8 && |nonce| == NONCE_SIZE
    ensures |h| == TAG_OFFSET
  {
    magic + [0, 0, 0, 1] + U32(length) + nonce
  }

  function Seal(mac: Mac, magic: seq<byte>, nonce: seq<byte>, payload: seq<byte>): (p: seq<byte>)
    requires |magic| == 8 && |nonce| == NONCE_SIZE
    ensures |p| == HEADER_SIZE + |payload|
  {
    var h, c := Header(magic, nonce, |payload|), XorStream(mac, nonce, payload);
    h + Tag(mac, h + c) + c
  }

  /** Building refuses payloads over the configured bound. */
  function Build(mac: Mac, max: nat, magic: seq<byte>, nonce: seq<byte>, payload: seq<byte>): Option<seq<byte>>
    requires |magic| == 8 && |nonce| == NONCE_SIZE
  {
    if |payload| > max then None else Some(Seal(mac, magic, nonce, payload))
  }

  datatype ReadResult = Eof | Bad | Packet(payload: seq<byte>, rest: seq<byte>)

  /** Read one packet from the front of the remaining bytes of a file. */
  function Open(mac: Mac, max: nat, magic: seq<byte>, bytes: seq<byte>): ReadResult
    requires |magic| == 8
  {
    if |bytes| == 0 then Eof
    else if |bytes| < HEADER_SIZE then Bad
    else if bytes[..8] != magic || bytes[11] != 1 then Bad
    else
      var length := FromBigEndian(bytes[12..16]);
      if length > max || |bytes| - HEADER_SIZE < length then Bad
      else
        var c := bytes[HEADER_SIZE..HEADER_SIZE + length];
        if Tag(mac, bytes[..TAG_OFFSET] + c) != bytes[TAG_OFFSET..HEADER_SIZE] then Bad
        else Packet(XorStream(mac, bytes[16..TAG_OFFSET], c), bytes[HEADER_SIZE + length..])
  }

  lemma SealLayout(mac: Mac, magic: seq<byte>, nonce: seq<byte>, payload: seq<byte>, rest: seq<byte>)
    requires |magic| == 8 && |nonce| == NONCE_SIZE
    ensures var h, c, p := Header(magic, nonce, |payload|), XorStream(mac, nonce, payload),
            Seal(mac, magic, nonce, payload) + rest;
            && p[..8] == magic && p[11] == 1 && p[12..16] == U32(|payload|) && p[16..TAG_OFFSET] == nonce
            && p[..TAG_OFFSET] == h && p[TAG_OFFSET..HEADER_SIZE] == Tag(mac, h + c)
            && p[HEADER_SIZE..HEADER_SIZE + |payload|] == c && p[HEADER_SIZE + |payload|..] == rest
  {
  }

  /** A packet reads back as its payload, whatever follows it in the file. */
  lemma SealedPacketOpens(mac: Mac, max: nat, magic: seq<byte>, nonce: seq<byte>, payload: seq<byte>, rest: seq<byte>)
    requires |magic| == 8 && |nonce| == NONCE_SIZE && |payload| <= max && |payload| < TWO_32
    ensures Open(mac, max, magic, Seal(mac, magic, nonce, payload) + rest) == Packet(payload, rest)
  {
    hide Seal, Header, XorStream, Tag, FromBigEndian, U32;
    SealLayout(mac, magic, nonce, payload, rest);
    U32RoundTrip(|payload|);
    XorStreamInvolutive(mac, nonce, payload);
  }

  /** The 32-bit length field decides: a built packet reads back if and only if its payload is shorter than 2^32. */
  lemma PacketRoundTripExactlyBelow4GiB(mac: Mac, max: nat, magic: seq<byte>, nonce: seq<byte>, payload: seq<byte>)
    requires |magic| == 8 && |nonce| == NONCE_SIZE && |payload| <= max
    ensures Open(mac, max, magic, Build(mac, max, magic, nonce, payload).value) == Packet(payload, [])
            <==> |payload| < TWO_32
  {
    var p := Seal(mac, magic, nonce, payload);
    assert p + [] == p;
    if |payload| < TWO_32 {
      SealedPacketOpens(mac, max, magic, nonce, payload, []);
    } else {
      SealLayout(mac, magic, nonce, payload, []);
      U32RoundTrip(|payload|);
      var r := Open(mac, max, magic, p);
      assert r.Packet? ==> |r.payload| == FromBigEndian(p[12..16]);
    }
  }

  // ---------------------------------------------------------------- a file of packets

  /** The payloads read before the stream ends or turns bad, and whether it ended cleanly. */
  function ReadAll(mac: Mac, max: nat, magic: seq<byte>, bytes: seq<byte>): (seq<seq<byte>>, bool)
    requires |magic| == 8
    decreases |bytes|
  {
    match Open(mac, max, magic, bytes)
    case Eof => ([], true)
    case Bad => ([], false)
    case Packet(p, rest) =>
      var r := ReadAll(mac, max, magic, rest);
      ([p] + r.0, r.1)
  }

  datatype Sealed = Sealed(nonce: seq<byte>, payload: seq<byte>)

  predicate Fits(max: nat, s: Sealed) {
    |s.nonce| == NONCE_SIZE && |s.payload| <= max && |s.payload| < TWO_32
  }

  predicate AllFit(max: nat, ps: seq<Sealed>) {
    forall i :: 0 <= i < |ps| ==> Fits(max, ps[i])
  }

  function Concat(mac: Mac, max: nat, magic: seq<byte>, ps: seq<Sealed>): seq<byte>
    requires |magic| == 8 && AllFit(max, ps)
  {
    if |ps| == 0 then [] else Seal(mac, magic, ps[0].nonce, ps[0].payload) + Concat(mac, max, magic, ps[1..])
  }

  function Payloads(ps: seq<Sealed>): (s: seq<seq<byte>>)
    ensures |s| == |ps|
  {
    seq(|ps|, i requires 0 <= i < |ps| => ps[i].payload)
  }

  /** The number of whole packets within the first `n` bytes. */
  function WholePackets(ps: seq<Sealed>, n: nat): (k: nat)
    ensures k <= |ps|
  {
    if |ps| == 0 || n < HEADER_SIZE + |ps[0].payload| then 0
    else 1 + WholePackets(ps[1..], n - (HEADER_SIZE + |ps[0].payload|))
  }

  function TotalSize(ps: seq<Sealed>): nat {
    if |ps| == 0 then 0 else HEADER_SIZE + |ps[0].payload| + TotalSize(ps[1..])
  }

  /** A packet cut anywhere inside is refused. */
  lemma CutPacketIsBad(mac: Mac, max: nat, magic: seq<byte>, nonce: seq<byte>, payload: seq<byte>, n: nat)
    requires |magic| == 8 && Fits(max, Sealed(nonce, payload)) && 0 < n < HEADER_SIZE + |payload|
    ensures Open(mac, max, magic, Seal(mac, magic, nonce, payload)[..n]) == Bad
  {
    if n >= HEADER_SIZE {
      var p := Seal(mac, magic, nonce, payload);
      SealLayout(mac, magic, nonce, payload, []);
      assert p + [] == p;
      assert p[..n][12..16] == U32(|payload|);
      U32RoundTrip(|payload|);
    }
  }

  /** A cut inside the first packet reads nothing, and ends cleanly only when nothing was there. */
  lemma CutInsideFirstPacket(mac: Mac, max: nat, magic: seq<byte>, s: Sealed, rest: seq<byte>, n: nat)
    requires |magic| == 8 && Fits(max, s) && n < HEADER_SIZE + |s.payload|
    ensures ReadAll(mac, max, magic, (Seal(mac, magic, s.nonce, s.payload) + rest)[..n]) == ([], n == 0)
  {
    var p := Seal(mac, magic, s.nonce, s.payload);
    assert (p + rest)[..n] == p[..n];
    if n > 0 {
      CutPacketIsBad(mac, max, magic, s.nonce, s.payload, n);
    }
  }

  lemma CutAfterFirstPacket(mac: Mac, max: nat, magic: seq<byte>, s: Sealed, rest: seq<byte>, n: nat)
    requires |magic| == 8 && Fits(max, s) && HEADER_SIZE + |s.payload| <= n <= HEADER_SIZE + |s.payload| + |rest|
    ensures var r := ReadAll(mac, max, magic, rest[..n - (HEADER_SIZE + |s.payload|)]);
            ReadAll(mac, max, magic, (Seal(mac, magic, s.nonce, s.payload) + rest)[..n]) == ([s.payload] + r.0, r.1)
  {
    var p := Seal(mac, magic, s.nonce, s.payload);
    assert (p + rest)[..n] == p + rest[..n - |p|];
    SealedPacketOpens(mac, max, magic, s.nonce, s.payload, rest[..n - |p|]);
  }

  function Expected(ps: seq<Sealed>, n: nat): (seq<seq<byte>>, bool) {
    if |ps| == 0 || n < HEADER_SIZE + |ps[0].payload| then ([], n == 0)
    else
      var r := Expected(ps[1..], n - (HEADER_SIZE + |ps[0].payload|));
      ([ps[0].payload] + r.0, r.1)
  }

  lemma {:induction false} ExpectedIsWholePackets(ps: seq<Sealed>, n: nat)
    ensures var k := WholePackets(ps, n); Expected(ps, n) == (Payloads(ps)[..k], n == TotalSize(ps[..k]))
    decreases |ps|
  {
    if |ps| > 0 && n >= HEADER_SIZE + |ps[0].payload| {
      var rest := n - (HEADER_SIZE + |ps[0].payload|);
      ExpectedIsWholePackets(ps[1..], rest);
      var k := WholePackets(ps[1..], rest);
      assert Payloads(ps)[..k + 1] == [ps[0].payload] + Payloads(ps[1..])[..k];
      assert ps[..k + 1][1..] == ps[1..][..k];
    }
  }

  lemma NothingReads(mac: Mac, max: nat, magic: seq<byte>)
    requires |magic| == 8
    ensures ReadAll(mac, max, magic, []) == ([], true)
  {
  }

  lemma {:induction false} PrefixReadsAsExpected(mac: Mac, max: nat, magic: seq<byte>, ps: seq<Sealed>, n: nat)
    requires |magic| == 8 && AllFit(max, ps) && n <= |Concat(mac, max, magic, ps)|
    ensures ReadAll(mac, max, magic, Concat(mac, max, magic, ps)[..n]) == Expected(ps, n)
    decreases |ps|
  {
    hide Open, Seal, XorStream, Tag, Header;
    if |ps| == 0 {
      NothingReads(mac, max, magic);
    } else {
      var s, rest := ps[0], Concat(mac, max, magic, ps[1..]);
      assert Fits(max, s);
      if n < HEADER_SIZE + |s.payload| {
        CutInsideFirstPacket(mac, max, magic, s, rest, n);
      } else {
        CutAfterFirstPacket(mac, max, magic, s, rest, n);
        PrefixReadsAsExpected(mac, max, magic, ps[1..], n - (HEADER_SIZE + |s.payload|));
      }
    }
  }

  /**
   Reading any prefix of a file of packets yields exactly the whole packets before the cut, and
   ends cleanly if and only if the cut is at a packet boundary.
   */
  lemma PrefixReadsWholePackets(mac: Mac, max: nat, magic: seq<byte>, ps: seq<Sealed>, n: nat)
    requires |magic| == 8 && AllFit(max, ps) && n <= |Concat(mac, max, magic, ps)|
    ensures var k := WholePackets(ps, n);
            ReadAll(mac, max, magic, Concat(mac, max, magic, ps)[..n]) ==
            (Payloads(ps)[..k], n == TotalSize(ps[..k]))
  {
    PrefixReadsAsExpected(mac, max, magic, ps, n);
    ExpectedIsWholePackets(ps, n);
  }

  lemma {:induction false} WholeFileSize(mac: Mac, max: nat, magic: seq<byte>, ps: seq<Sealed>)
    requires |magic| == 8 && AllFit(max, ps)
    ensures |Concat(mac, max, magic, ps)| == TotalSize(ps)
    ensures WholePackets(ps, TotalSize(ps)) == |ps|
  {
    if |ps| > 0 {
      assert Fits(max, ps[0]);
      WholeFileSize(mac, max, magic, ps[1..]);
    }
  }

  /** A file of packets reads back as the list of their payloads. */
  lemma PacketsReadBack(mac: Mac, max: nat, magic: seq<byte>, ps: seq<Sealed>)
    requires |magic| == 8 && AllFit(max, ps)
    ensures ReadAll(mac, max, magic, Concat(mac, max, magic, ps)) == (Payloads(ps), true)
  {
    var bytes := Concat(mac, max, magic, ps);
    WholeFileSize(mac, max, magic, ps);
    PrefixReadsWholePackets(mac, max, magic, ps, |bytes|);
    assert bytes[..|bytes|] == bytes && ps[..|ps|] == ps && Payloads(ps)[..|ps|] == Payloads(ps);
  }

  // ---------------------------------------------------------------- bytes after a torn packet

  /** Packets followed by anything read back first, then what the rest reads as. */
  lemma {:induction false} PacketsThenRest(mac: Mac, max: nat, magic: seq<byte>, ps: seq<Sealed>, tail: seq<byte>)
    requires |magic| == 8 && AllFit(max, ps)
    ensures var r := ReadAll(mac, max, magic, tail);
            ReadAll(mac, max, magic, Concat(mac, max, magic, ps) + tail) == (Payloads(ps) + r.0, r.1)
  {
    hide Open, Seal, XorStream, Tag, Header;
    if |ps| == 0 {
      assert Concat(mac, max, magic, ps) + tail == tail;
      assert Payloads(ps) + ReadAll(mac, max, magic, tail).0 == ReadAll(mac, max, magic, tail).0;
    } else {
      var s, rest := ps[0], Concat(mac, max, magic, ps[1..]) + tail;
      assert Fits(max, s);
      assert Concat(mac, max, magic, ps) + tail == Seal(mac, magic, s.nonce, s.payload) + rest;
      SealedPacketOpens(mac, max, magic, s.nonce, s.payload, rest);
      PacketsThenRest(mac, max, magic, ps[1..], tail);
      var r := ReadAll(mac, max, magic, tail);
      assert Payloads(ps) + r.0 == [s.payload] + (Payloads(ps[1..]) + r.0);
    }
  }

  /** What a packet's tag covers. */
  function Message(mac: Mac, magic: seq<byte>, p: Sealed): seq<byte>
    requires |magic| == 8 && |p.nonce| == NONCE_SIZE
  {
    Header(magic, p.nonce, |p.payload|) + XorStream(mac, p.nonce, p.payload)
  }

  /** The message the bytes at the front of a file claim to be, by their length field. */
  function ClaimedMessage(bytes: seq<byte>): seq<byte>
    requires |bytes| >= HEADER_SIZE && |bytes| - HEADER_SIZE >= FromBigEndian(bytes[12..16])
  {
    bytes[..TAG_OFFSET] + bytes[HEADER_SIZE..HEADER_SIZE + FromBigEndian(bytes[12..16])]
  }

  /**
   Bytes that begin with a cut packet are read as a packet only if they go on to complete it, or if the
   tag in them is right for another message: for a cut behind the header that means two different
   messages with one tag, for a cut inside the header a tag made up of bytes from both sides of the cut.
   */
  lemma TornPacketIsReadOnlyByCoincidence(mac: Mac, max: nat, magic: seq<byte>, p: Sealed, n: nat, rest: seq<byte>)
    requires |magic| == 8 && Fits(max, p) && n < HEADER_SIZE + |p.payload|
    requires var packet := Seal(mac, magic, p.nonce, p.payload); Open(mac, max, magic, packet[..n] + rest).Packet?
    ensures var packet := Seal(mac, magic, p.nonce, p.payload);
            var tail := packet[..n] + rest;
            && |tail| >= HEADER_SIZE && |tail| - HEADER_SIZE >= FromBigEndian(tail[12..16])
            && Tag(mac, ClaimedMessage(tail)) == tail[TAG_OFFSET..HEADER_SIZE]
            && (n >= HEADER_SIZE ==>
                  || packet <= tail
                  || (ClaimedMessage(tail) != Message(mac, magic, p)
                      && Tag(mac, ClaimedMessage(tail)) == Tag(mac, Message(mac, magic, p))))
  {
    var packet := Seal(mac, magic, p.nonce, p.payload);
    var tail := packet[..n] + rest;
    if n >= HEADER_SIZE {
      SealLayout(mac, magic, p.nonce, p.payload, []);
      assert packet + [] == packet;
      U32RoundTrip(|p.payload|);
      HeaderSurvivesTheCut(packet, n, rest);
      hide Tag, XorStream, Seal;
      if ClaimedMessage(tail) == Message(mac, magic, p) {
        var c := XorStream(mac, p.nonce, p.payload);
        assert ClaimedMessage(tail)[TAG_OFFSET..] == c;
        assert tail[..|packet|] == tail[..HEADER_SIZE] + tail[HEADER_SIZE..|packet|];
        assert packet == packet[..HEADER_SIZE] + c;
      }
    }
  }

  lemma HeaderSurvivesTheCut(packet: seq<byte>, n: nat, rest: seq<byte>)
    requires HEADER_SIZE <= n <= |packet|
    ensures var tail := packet[..n] + rest;
            && tail[..HEADER_SIZE] == packet[..HEADER_SIZE] && tail[..TAG_OFFSET] == packet[..TAG_OFFSET]
            && tail[12..16] == packet[12..16] && tail[TAG_OFFSET..HEADER_SIZE] == packet[TAG_OFFSET..HEADER_SIZE]
  {
  }
}
