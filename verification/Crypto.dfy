/** Digests, HMAC-SHA-256 (section 2 of RFC 2104) and the counter-mode stream, computed as the service computes them. */
module Crypto {
  import opened Bytes
  import opened Sha256
  import Packet

  /** Messages whose length in bits fits the 64-bit counter. */
  const MESSAGE_LIMIT: nat := TWO_63 / 4

  function Flatten(chunks: seq<seq<byte>>): seq<byte> {
    if |chunks| == 0 then [] else Flatten(chunks[..|chunks| - 1]) + chunks[|chunks| - 1]
  }

  /** However a message is split into updates, the streamed digest is the SHA-256 of the whole message. */
  method HashChunks(chunks: seq<seq<byte>>) returns (digest: seq<byte>)
    requires |Flatten(chunks)| < MESSAGE_LIMIT
    ensures digest == Hash(Flatten(chunks))
  {
    var context := new Context(Words32());
    for i := 0 to |chunks|
      invariant context.Valid() && context.w == Words32() && context.message == Flatten(chunks[..i])
      invariant fresh(context) && fresh(context.state) && fresh(context.block)
    {
      context.Update(chunks[i]);
      assert chunks[..i + 1][..i] == chunks[..i];
    }
    assert chunks[..|chunks|] == chunks;
    digest := context.Final();
  }

  lemma FlattenOne(a: seq<byte>)
    ensures Flatten([a]) == a
  {
    assert [a][..0] == [];
  }

  lemma FlattenTwo(a: seq<byte>, b: seq<byte>)
    ensures Flatten([a, b]) == a + b
  {
    assert [a, b][..1] == [a];
    FlattenOne(a);
  }

  method Sha256Digest(m: seq<byte>) returns (digest: seq<byte>)
    requires |m| < MESSAGE_LIMIT
    ensures digest == Hash(m)
  {
    FlattenOne(m);
    digest := HashChunks([m]);
  }

  // ---------------------------------------------------------------- HMAC

  /** A key longer than a block is hashed first; then it is padded with zeros to a block. */
  ghost function BlockKey(key: seq<byte>): (k: seq<byte>)
    ensures |k| == BLOCK_SIZE
  {
    if |key| > BLOCK_SIZE then Hash(key) + Zeros(BLOCK_SIZE - DIGEST_SIZE) else key + Zeros(BLOCK_SIZE - |key|)
  }

  function XorEach(k: seq<byte>, pad: byte): (s: seq<byte>)
    ensures |s| == |k|
  {
    seq(|k|, i requires 0 <= i < |k| => Xor(k[i], pad))
  }

  /** H((K xor opad) || H((K xor ipad) || m)). */
  ghost function Hmac(key: seq<byte>, m: seq<byte>): (d: seq<byte>)
    ensures |d| == DIGEST_SIZE
  {
    Hash(XorEach(BlockKey(key), 0x5c) + Hash(XorEach(BlockKey(key), 0x36) + m))
  }

  method NormalizeKey(key: seq<byte>) returns (k: seq<byte>)
    requires |key| < MESSAGE_LIMIT
    ensures k == BlockKey(key)
  {
    if |key| > BLOCK_SIZE {
      var d := Sha256Digest(key);
      k := d + Zeros(BLOCK_SIZE - DIGEST_SIZE);
    } else {
      k := key + Zeros(BLOCK_SIZE - |key|);
    }
  }

  /** The two-pass computation with the pads and the message fed in separate updates. */
  method HmacSha256(key: seq<byte>, m: seq<byte>) returns (digest: seq<byte>)
    requires |key| < MESSAGE_LIMIT && |m| + BLOCK_SIZE < MESSAGE_LIMIT
    ensures digest == Hmac(key, m)
  {
    var k := NormalizeKey(key);
    var inner, outer := XorEach(k, 0x36), XorEach(k, 0x5c);
    FlattenTwo(inner, m);
    var inside := HashChunks([inner, m]);
    FlattenTwo(outer, inside);
    digest := HashChunks([outer, inside]);
  }

  /** HMAC under a fixed key, as the packet format takes it. */
  ghost function HmacWith(key: seq<byte>): Packet.Mac {
    m => Hmac(key, m)
  }

  lemma TagIsHmac(key: seq<byte>, m: seq<byte>)
    ensures Packet.Tag(HmacWith(key), m) == Hmac(key, m)
  {
  }

  // ---------------------------------------------------------------- the stream

  /** The first `done` bytes of `text` have been combined with the key stream. */
  ghost predicate Streamed(mac: Packet.Mac, nonce: seq<byte>, text: seq<byte>, now: seq<byte>, done: nat) {
    && |now| == |text| && done <= |text|
    && (forall i :: 0 <= i < done ==> now[i] == Xor(text[i], Packet.Keystream(mac, nonce, i)))
    && (forall i :: done <= i < |text| ==> now[i] == text[i])
  }

  lemma KeystreamBlock(mac: Packet.Mac, nonce: seq<byte>, counter: nat, i: nat)
    requires i < 32
    ensures Packet.Keystream(mac, nonce, 32 * counter + i) == Packet.Tag(mac, nonce + BigEndian(counter, 8))[i]
  {
    assert (32 * counter + i) / 32 == counter && (32 * counter + i) % 32 == i;
  }

  lemma StreamedBlock(mac: Packet.Mac, nonce: seq<byte>, text: seq<byte>, before: seq<byte>, now: seq<byte>,
        counter: nat, n: nat)
    requires n <= 32 && 32 * counter + n <= |text|
    requires Streamed(mac, nonce, text, before, 32 * counter)
    requires |now| == |text| && XoredAt(before, now, 32 * counter, n, Packet.Tag(mac, nonce + BigEndian(counter, 8)))
    ensures Streamed(mac, nonce, text, now, 32 * counter + n)
  {
    forall i | 32 * counter <= i < 32 * counter + n
      ensures now[i] == Xor(text[i], Packet.Keystream(mac, nonce, i))
    {
      KeystreamBlock(mac, nonce, counter, i - 32 * counter);
    }
  }

  method StreamBlock(key: seq<byte>, nonce: seq<byte>, counter: nat, ghost mac: Packet.Mac) returns (stream: seq<byte>)
    requires |key| < MESSAGE_LIMIT && |nonce| == Packet.NONCE_SIZE && mac == HmacWith(key)
    ensures stream == Packet.Tag(mac, nonce + BigEndian(counter, 8))
  {
    stream := HmacSha256(key, nonce + BigEndian(counter, 8));
    TagIsHmac(key, nonce + BigEndian(counter, 8));
  }

  method XorNextBlock(key: seq<byte>, nonce: seq<byte>, bytes: array<byte>, counter: nat, ghost mac: Packet.Mac,
      ghost text: seq<byte>)
      returns (done: nat)
    requires |key| < MESSAGE_LIMIT && |nonce| == Packet.NONCE_SIZE && mac == HmacWith(key)
    requires 32 * counter < bytes.Length && Streamed(mac, nonce, text, bytes[..], 32 * counter)
    modifies bytes
    ensures done == 32 * (counter + 1) < bytes.Length || 32 * counter < done == bytes.Length
    ensures Streamed(mac, nonce, text, bytes[..], done)
  {
    var stream := StreamBlock(key, nonce, counter, mac);
    var n := if bytes.Length - 32 * counter < 32 then bytes.Length - 32 * counter else 32;
    ghost var before := bytes[..];
    XorBlock(bytes, 32 * counter, n, stream);
    StreamedBlock(mac, nonce, text, before, bytes[..], counter, n);
    done := 32 * counter + n;
  }

  /** Exclusive-or a buffer in place with the key stream, 32 bytes at a time. */
  method StreamXor(key: seq<byte>, nonce: seq<byte>, bytes: array<byte>)
    requires |key| < MESSAGE_LIMIT && |nonce| == Packet.NONCE_SIZE
    modifies bytes
    ensures bytes[..] == Packet.XorStream(HmacWith(key), nonce, old(bytes[..]))
  {
    hide HmacWith, Packet.Keystream, Xor;
    ghost var text, mac := bytes[..], HmacWith(key);
    var counter, offset := 0, 0;
    while offset < bytes.Length
      invariant offset == 32 * counter || offset == bytes.Length
      invariant Streamed(mac, nonce, text, bytes[..], offset)
    {
      offset := XorNextBlock(key, nonce, bytes, counter, mac, text);
      counter := counter + 1;
    }
  }

  ghost predicate XoredAt(before: seq<byte>, now: seq<byte>, offset: nat, n: nat, stream: seq<byte>)
    requires |before| == |now| && offset + n <= |now| && n <= |stream|
  {
    forall i :: 0 <= i < |now| ==>
      now[i] == if offset <= i < offset + n then Xor(before[i], stream[i - offset]) else before[i]
  }

  method XorBlock(bytes: array<byte>, offset: nat, n: nat, stream: seq<byte>)
    requires offset + n <= bytes.Length && n <= |stream|
    modifies bytes
    ensures XoredAt(old(bytes[..]), bytes[..], offset, n, stream)
  {
    for k := 0 to n
      invariant forall i :: 0 <= i < bytes.Length ==>
                  bytes[i] == if offset <= i < offset + k then Xor(old(bytes[i]), stream[i - offset]) else old(bytes[i])
    {
      bytes[offset + k] := Xor(bytes[offset + k], stream[k]);
    }
  }
}
