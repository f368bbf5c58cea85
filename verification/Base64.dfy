/** The base64 form in which values cross the HTTP interface (section 4 of RFC 4648 describes the encoding). */
module Base64 {
  import opened Bytes

  /** Upper-case letters, lower-case letters, decimal digits, '+' and '/'. */
  function Digit(v: nat): char
    requires v < 64
  {
    if v < 26 then 'A' + v as char
    else if v < 52 then 'a' + (v - 26) as char
    else if v < 62 then '0' + (v - 52) as char
    else if v == 62 then '+'
    else '/'
  }

  /** The six-bit value of a character, or -1. */
  function Value(c: char): (v: int)
    ensures -1 <= v < 64
  {
    if 'A' <= c <= 'Z' then c as int - 'A' as int
    else if 'a' <= c <= 'z' then c as int - 'a' as int + 26
    else if '0' <= c <= '9' then c as int - '0' as int + 52
    else if c == '+' then 62
    else if c == '/' then 63
    else -1
  }

  lemma DigitHasItsValue(v: nat)
    requires v < 64
    ensures Value(Digit(v)) == v && Digit(v) != '='
  {
  }

  // ---------------------------------------------------------------- encoding

  /** One group of three, two or one bytes. */
  function EncodeGroup(b: seq<byte>): (s: string)
    requires 1 <= |b| <= 3
    ensures |s| == 4
  {
    var chunk := Chunk(b);
    [Digit(chunk / 0x4_0000),
     Digit(chunk / 0x1000 % 64),
     if |b| > 1 then Digit(chunk / 64 % 64) else '=',
     if |b| > 2 then Digit(chunk % 64) else '=']
  }

  function Chunk(b: seq<byte>): (n: nat)
    requires 1 <= |b| <= 3
    ensures n < 0x100_0000
  {
    var x: nat, y: nat, z: nat := b[0], if |b| > 1 then b[1] else 0, if |b| > 2 then b[2] else 0;
    x * 0x1_0000 + y * 0x100 + z
  }

  function Encode(b: seq<byte>): string {
    if |b| == 0 then []
    else
      var n := if |b| < 3 then |b| else 3;
      EncodeGroup(b[..n]) + Encode(b[n..])
  }

  lemma {:induction false} EncodedLength(b: seq<byte>)
    ensures |Encode(b)| == (|b| + 2) / 3 * 4
    decreases |b|
  {
    if |b| > 0 {
      EncodedLength(b[if |b| < 3 then |b| else 3..]);
    }
  }

  // ---------------------------------------------------------------- decoding

  function Pads(g: string): (n: nat)
    requires |g| == 4
    ensures n <= 4
  {
    (if g[0] == '=' then 1 else 0) + (if g[1] == '=' then 1 else 0)
    + (if g[2] == '=' then 1 else 0) + (if g[3] == '=' then 1 else 0)
  }

  predicate Readable(c: char) {
    c == '=' || Value(c) >= 0
  }

  predicate GroupReadable(g: string)
    requires |g| == 4
  {
    Readable(g[0]) && Readable(g[1]) && Readable(g[2]) && Readable(g[3])
  }

  function SixBits(c: char): (v: nat)
    ensures v < 64
  {
    if Value(c) < 0 then 0 else Value(c)
  }

  function ChunkOf(g: string): (c: nat)
    requires |g| == 4
    ensures c < 0x100_0000
  {
    SixBits(g[0]) * 0x4_0000 + SixBits(g[1]) * 0x1000 + SixBits(g[2]) * 64 + SixBits(g[3])
  }

  /** The bytes of one group: padding reads as zero bits and drops the second or the third byte. */
  function GroupBytes(g: string): (b: seq<byte>)
    requires |g| == 4
    ensures 1 <= |b| <= 3
  {
    var chunk := ChunkOf(g);
    [chunk / 0x1_0000]
    + (if g[2] != '=' then [chunk / 0x100 % 0x100] else [])
    + (if g[3] != '=' then [chunk % 0x100] else [])
  }

  /** The room test on 64-bit sizes: three bytes less one for each padding character, added to what has been written. */
  predicate RoomFor(written: nat, pads: nat, capacity: nat) {
    (written + (TWO_64 + 3 - pads) % TWO_64) % TWO_64 <= capacity
  }

  /** With room for three more bytes, only a fully padded group at the very start fails the room test. */
  lemma RoomFailsOnlyForLeadingPadding(written: nat, pads: nat, capacity: nat)
    requires written + 3 <= capacity < TWO_64 - 1 && pads <= 4
    ensures RoomFor(written, pads, capacity) <==> !(written == 0 && pads == 4)
  {
  }

  /** Decode the whole groups of a text. */
  function DecodeFrom(text: string, written: nat, capacity: nat): Option<seq<byte>>
    decreases |text|
  {
    if |text| < 4 then Some([])
    else if !GroupReadable(text[..4]) || !RoomFor(written, Pads(text[..4]), capacity) then None
    else
      var b := GroupBytes(text[..4]);
      match DecodeFrom(text[4..], written + |b|, capacity)
      case None => None
      case Some(rest) => Some(b + rest)
  }

  function Decode(text: string, capacity: nat): Option<seq<byte>> {
    if |text| % 4 != 0 then None else DecodeFrom(text, 0, capacity)
  }

  /** The buffer a PUT allocates for the decoded value. */
  function PutCapacity(length: nat): nat {
    length / 4 * 3 + 3
  }

  // ---------------------------------------------------------------- round trip

  lemma ThreeParts(x: byte, y: byte, z: byte)
    ensures var c := x * 0x1_0000 + y * 0x100 + z; c / 0x1_0000 == x && c / 0x100 % 0x100 == y && c % 0x100 == z
  {
    var c: int := x * 0x1_0000 + y * 0x100 + z;
    assert c / 0x100 == x * 0x100 + y;
  }

  lemma ChunkParts(b: seq<byte>)
    requires 1 <= |b| <= 3
    ensures var c := Chunk(b);
            && c / 0x1_0000 == b[0]
            && (if |b| > 1 then c / 0x100 % 0x100 == b[1] else c / 64 % 64 == 0)
            && (if |b| > 2 then c % 0x100 == b[2] else c % 64 == 0)
  {
    ThreeParts(b[0], if |b| > 1 then b[1] else 0, if |b| > 2 then b[2] else 0);
  }

  lemma DigitsMakeTheChunk(c: nat)
    requires c < 0x100_0000
    ensures c / 0x4_0000 < 64
    ensures c / 0x4_0000 * 0x4_0000 + c / 0x1000 % 64 * 0x1000 + c / 64 % 64 * 64 + c % 64 == c
  {
    assert c / 0x1000 == c / 0x4_0000 * 64 + c / 0x1000 % 64;
    assert c / 64 == c / 0x1000 * 64 + c / 64 % 64;
  }

  lemma GroupRoundTrip(b: seq<byte>)
    requires 1 <= |b| <= 3
    ensures var g := EncodeGroup(b); GroupReadable(g) && GroupBytes(g) == b && Pads(g) == 3 - |b|
  {
    var c, g := Chunk(b), EncodeGroup(b);
    DigitHasItsValue(c / 0x4_0000);
    DigitHasItsValue(c / 0x1000 % 64);
    DigitHasItsValue(c / 64 % 64);
    DigitHasItsValue(c % 64);
    ChunkParts(b);
    DigitsMakeTheChunk(c);
    hide Digit, Value, Chunk;
    assert SixBits(g[0]) == c / 0x4_0000 && SixBits(g[1]) == c / 0x1000 % 64;
    assert SixBits(g[2]) == c / 64 % 64 && SixBits(g[3]) == c % 64;
  }

  lemma DecodeStep(g: string, rest: string, written: nat, capacity: nat)
    requires |g| == 4
    ensures DecodeFrom(g + rest, written, capacity) ==
            if !GroupReadable(g) || !RoomFor(written, Pads(g), capacity) then None
            else
              match DecodeFrom(rest, written + |GroupBytes(g)|, capacity)
              case None => None
              case Some(tail) => Some(GroupBytes(g) + tail)
  {
    hide GroupBytes, Pads, RoomFor, GroupReadable;
    assert (g + rest)[..4] == g && (g + rest)[4..] == rest;
  }

  lemma RoundTripStep(b: seq<byte>, n: nat, written: nat, capacity: nat)
    requires written + |b| + 3 <= capacity < TWO_64 - 1
    requires 1 <= n <= 3 && n <= |b| && DecodeFrom(Encode(b[n..]), written + n, capacity) == Some(b[n..])
    ensures DecodeFrom(EncodeGroup(b[..n]) + Encode(b[n..]), written, capacity) == Some(b)
  {
    hide *;
    var g := EncodeGroup(b[..n]);
    GroupRoundTrip(b[..n]);
    RoomFailsOnlyForLeadingPadding(written, Pads(g), capacity);
    DecodeStep(g, Encode(b[n..]), written, capacity);
    assert b == b[..n] + b[n..];
  }

  lemma {:induction false} RoundTripFrom(b: seq<byte>, written: nat, capacity: nat)
    requires written + |b| + 3 <= capacity < TWO_64 - 1
    ensures DecodeFrom(Encode(b), written, capacity) == Some(b)
    decreases |b|
  {
    hide EncodeGroup, GroupBytes, Pads, RoomFor, GroupReadable;
    if |b| > 0 {
      var n := if |b| < 3 then |b| else 3;
      RoundTripFrom(b[n..], written + n, capacity);
      RoundTripStep(b, n, written, capacity);
    }
  }

  /** Every value decodes from its encoding, in the buffer a PUT allocates for that text. */
  lemma RoundTrip(b: seq<byte>)
    requires |b| < TWO_63
    ensures Decode(Encode(b), PutCapacity(|Encode(b)|)) == Some(b)
  {
    hide Encode, DecodeFrom;
    EncodedLength(b);
    RoundTripFrom(b, 0, PutCapacity(|Encode(b)|));
  }

  // ---------------------------------------------------------------- exactly what is accepted

  predicate AllReadable(text: string) {
    forall i :: 0 <= i < |text| ==> Readable(text[i])
  }

  lemma ReadableByGroups(g: string, rest: string)
    requires |g| == 4
    ensures AllReadable(g + rest) <==> GroupReadable(g) && AllReadable(rest)
  {
    hide Value;
    var text := g + rest;
    assert forall i :: 0 <= i < |rest| ==> rest[i] == text[i + 4];
    assert text[0] == g[0] && text[1] == g[1] && text[2] == g[2] && text[3] == g[3];
    forall i | 0 <= i < |text| && GroupReadable(g) && AllReadable(rest)
      ensures Readable(text[i])
    {
      assert i >= 4 ==> text[i] == rest[i - 4];
    }
  }

  lemma {:induction false} DecodeFromAccepts(text: string, written: nat, capacity: nat)
    requires |text| % 4 == 0 && written + |text| / 4 * 3 + 3 <= capacity < TWO_64 - 1
    ensures DecodeFrom(text, written, capacity).Some? <==>
              AllReadable(text) && !(written == 0 && |text| > 0 && text[..4] == "====")
    ensures DecodeFrom(text, written, capacity).Some? ==> |DecodeFrom(text, written, capacity).value| <= |text| / 4 * 3
    decreases |text|
  {
    if |text| > 0 {
      var g, rest := text[..4], text[4..];
      assert Pads(g) == 4 <==> g == "====";
      RoomFailsOnlyForLeadingPadding(written, Pads(g), capacity);
      DecodeFromAccepts(rest, written + |GroupBytes(g)|, capacity);
      assert text == g + rest;
      ReadableByGroups(g, rest);
    }
  }

  /**
   A PUT accepts a text exactly when its length is a multiple of four, every character is a digit or
   padding, and it does not begin with four padding characters; the value never outgrows the buffer.
   */
  lemma AcceptedExactly(text: string)
    requires |text| < TWO_63
    ensures var r := Decode(text, PutCapacity(|text|));
            && (r.Some? <==> |text| % 4 == 0 && AllReadable(text) && !("====" <= text))
            && (r.Some? ==> |r.value| <= |text| / 4 * 3)
  {
    if |text| % 4 == 0 {
      DecodeFromAccepts(text, 0, PutCapacity(|text|));
    }
  }

  // ---------------------------------------------------------------- when re-encoding gives the text back

  predicate IsDigit(c: char) {
    Value(c) >= 0
  }

  predicate FullGroup(g: string)
    requires |g| == 4
  {
    IsDigit(g[0]) && IsDigit(g[1]) && IsDigit(g[2]) && IsDigit(g[3])
  }

  /** A last group: padding only at its end, and no bits in the dropped part. */
  predicate LastGroup(g: string)
    requires |g| == 4
  {
    || FullGroup(g)
    || (IsDigit(g[0]) && IsDigit(g[1]) && IsDigit(g[2]) && Value(g[2]) % 4 == 0 && g[3] == '=')
    || (IsDigit(g[0]) && IsDigit(g[1]) && Value(g[1]) % 16 == 0 && g[2] == '=' && g[3] == '=')
  }

  predicate Canonical(text: string) {
    if |text| <= 4 then |text| == 0 || (|text| == 4 && LastGroup(text))
    else FullGroup(text[..4]) && Canonical(text[4..])
  }

  lemma DigitOfValue(c: char)
    requires IsDigit(c)
    ensures Digit(Value(c)) == c && c != '='
  {
  }

  lemma ChunkDigits(v0: nat, v1: nat, v2: nat, v3: nat)
    requires v0 < 64 && v1 < 64 && v2 < 64 && v3 < 64
    ensures var c := v0 * 0x4_0000 + v1 * 0x1000 + v2 * 64 + v3;
            c / 0x4_0000 == v0 && c / 0x1000 % 64 == v1 && c / 64 % 64 == v2 && c % 64 == v3
  {
    var c := v0 * 0x4_0000 + v1 * 0x1000 + v2 * 64 + v3;
    assert c / 64 == v0 * 0x1000 + v1 * 64 + v2;
    assert c / 0x1000 == v0 * 64 + v1;
  }

  lemma BytesOfAChunk(c: nat)
    requires c < 0x100_0000
    ensures c / 0x1_0000 * 0x1_0000 + c / 0x100 % 0x100 * 0x100 + c % 0x100 == c
  {
    assert c / 0x100 == c / 0x1_0000 * 0x100 + c / 0x100 % 0x100;
  }

  lemma DroppedBytesAreZero(v0: nat, v1: nat, v2: nat, v3: nat)
    requires v0 < 64 && v1 < 64 && v2 < 64 && v3 < 64
    ensures var c := v0 * 0x4_0000 + v1 * 0x1000 + v2 * 64 + v3;
            && (v3 == 0 && v2 % 4 == 0 ==> c % 0x100 == 0)
            && (v3 == 0 && v2 == 0 && v1 % 16 == 0 ==> c / 0x100 % 0x100 == 0)
  {
    var w1, w2 := v1 / 16, v2 / 4;
    if v3 == 0 && v2 % 4 == 0 {
      assert v2 == 4 * w2;
      if v2 == 0 && v1 % 16 == 0 {
        assert v1 == 16 * w1;
        assert (v0 * 0x4_0000 + v1 * 0x1000) / 0x100 == (v0 * 4 + w1) * 0x100;
      }
    }
  }

  lemma BytesMakeTheChunk(g: string)
    requires |g| == 4 && LastGroup(g)
    ensures Chunk(GroupBytes(g)) == ChunkOf(g)
    ensures |GroupBytes(g)| > 1 <==> g[2] != '='
    ensures |GroupBytes(g)| > 2 <==> g[3] != '='
  {
    DroppedBytesAreZero(SixBits(g[0]), SixBits(g[1]), SixBits(g[2]), SixBits(g[3]));
    BytesOfAChunk(ChunkOf(g));
    hide Value;
    assert g[2] == '=' ==> SixBits(g[2]) == 0;
  }

  lemma LastGroupEncodesBack(g: string)
    requires |g| == 4 && LastGroup(g)
    ensures GroupReadable(g) && EncodeGroup(GroupBytes(g)) == g
  {
    BytesMakeTheChunk(g);
    ChunkDigits(SixBits(g[0]), SixBits(g[1]), SixBits(g[2]), SixBits(g[3]));
    hide GroupBytes, Chunk, Digit;
    DigitOfValue(g[0]);
    DigitOfValue(g[1]);
    if IsDigit(g[2]) {
      DigitOfValue(g[2]);
    }
    if IsDigit(g[3]) {
      DigitOfValue(g[3]);
    }
  }

  lemma EncodedGroupIsLast(b: seq<byte>)
    requires 1 <= |b| <= 3
    ensures LastGroup(EncodeGroup(b)) && (|b| == 3 ==> FullGroup(EncodeGroup(b)))
  {
    var c := Chunk(b);
    DigitHasItsValue(c / 0x4_0000);
    DigitHasItsValue(c / 0x1000 % 64);
    DigitHasItsValue(c / 64 % 64);
    DigitHasItsValue(c % 64);
    PaddedDigitsAreRound(b);
    hide Digit, Value, Chunk;
  }

  lemma PaddedDigitsAreRound(b: seq<byte>)
    requires 1 <= |b| <= 3
    ensures |b| == 1 ==> Chunk(b) / 0x1000 % 64 % 16 == 0
    ensures |b| == 2 ==> Chunk(b) / 64 % 64 % 4 == 0
  {
    var x: nat, y: nat := b[0], if |b| > 1 then b[1] else 0;
    if |b| == 1 {
      assert Chunk(b) / 0x1000 == x * 16;
    } else if |b| == 2 {
      assert Chunk(b) / 64 == (x * 0x100 + y) * 4;
    }
  }

  lemma {:induction false} EncodedIsCanonical(b: seq<byte>)
    ensures Canonical(Encode(b))
  {
    hide EncodeGroup, LastGroup, FullGroup;
    if |b| > 3 {
      EncodedGroupIsLast(b[..3]);
      EncodedIsCanonical(b[3..]);
      assert Encode(b)[..4] == EncodeGroup(b[..3]) && Encode(b)[4..] == Encode(b[3..]);
      EncodedLength(b[3..]);
    } else if |b| > 0 {
      assert b[..|b|] == b && Encode(b) == EncodeGroup(b) + [] == EncodeGroup(b);
      EncodedGroupIsLast(b);
    }
  }

  lemma {:induction false} CanonicalEncodesBack(text: string, written: nat, capacity: nat)
    requires Canonical(text) && DecodeFrom(text, written, capacity).Some?
    ensures Encode(DecodeFrom(text, written, capacity).value) == text
    decreases |text|
  {
    hide EncodeGroup, GroupBytes, Pads, RoomFor, GroupReadable;
    if |text| == 4 {
      assert text[..4] == text && text[4..] == [];
      LastGroupEncodesBack(text);
      var b := GroupBytes(text);
      assert b + [] == b && b[..|b|] == b && b[|b|..] == [];
    } else if |text| > 4 {
      CanonicalEncodesBack(text[4..], written + |GroupBytes(text[..4])|, capacity);
      FirstGroupEncodesBack(text[..4], DecodeFrom(text[4..], written + |GroupBytes(text[..4])|, capacity).value);
      assert text == text[..4] + text[4..];
    }
  }

  lemma FirstGroupEncodesBack(g: string, rest: seq<byte>)
    requires |g| == 4 && FullGroup(g)
    ensures Encode(GroupBytes(g) + rest) == g + Encode(rest)
  {
    LastGroupEncodesBack(g);
    DigitOfValue(g[2]);
    DigitOfValue(g[3]);
    var b := GroupBytes(g);
    assert |b| == 3 && (b + rest)[..3] == b && (b + rest)[3..] == rest;
  }

  /** Re-encoding an accepted text gives that text back exactly when it is canonical. */
  lemma ReencodingIsTheTextExactlyWhenCanonical(text: string)
    requires Decode(text, PutCapacity(|text|)).Some?
    ensures Encode(Decode(text, PutCapacity(|text|)).value) == text <==> Canonical(text)
  {
    hide Encode, DecodeFrom, Canonical;
    EncodedIsCanonical(Decode(text, PutCapacity(|text|)).value);
    if Canonical(text) {
      CanonicalEncodesBack(text, 0, PutCapacity(|text|));
    }
  }

  /** Not every accepted text is canonical: here bits hide behind the padding. */
  lemma NotEveryAcceptedTextIsCanonical()
    ensures Decode("AB==", PutCapacity(4)) == Some([0]) && !Canonical("AB==")
  {
    RoomFailsOnlyForLeadingPadding(0, 2, 6);
    assert "AB=="[..4] == "AB==" && |"AB=="[4..]| == 0;
    assert Value('A') == 0 && Value('B') == 1 && SixBits('=') == 0;
    assert GroupBytes("AB==") == [0] && [0 as byte] + [] == [0];
  }

  // ---------------------------------------------------------------- how large the buffer must be

  /** Every group that passes the room test also has room for what it writes. */
  predicate StaysInside(text: string, written: nat, capacity: nat)
    decreases |text|
  {
    |text| < 4 || !GroupReadable(text[..4]) || !RoomFor(written, Pads(text[..4]), capacity) ||
    var next := written + |GroupBytes(text[..4])|;
    next <= capacity && StaysInside(text[4..], next, capacity)
  }

  lemma {:induction false} ThreeBytesPerGroupSuffice(text: string, written: nat, capacity: nat)
    requires written + |text| / 4 * 3 <= capacity
    ensures StaysInside(text, written, capacity)
    decreases |text|
  {
    hide GroupReadable, RoomFor, Pads, GroupBytes;
    if |text| >= 4 {
      ThreeBytesPerGroupSuffice(text[4..], written + |GroupBytes(text[..4])|, capacity);
    }
  }

  /** `k` groups of three bytes each, then a group the room test underestimates, then more. */
  function Crowded(k: nat, last: string, rest: string): string {
    if k == 0 then last + rest else "AAAA" + Crowded(k - 1, last, rest)
  }

  lemma {:induction false} CrowdedLength(k: nat, last: string, rest: string)
    ensures |Crowded(k, last, rest)| == 4 * k + |last| + |rest|
  {
    if k > 0 {
      CrowdedLength(k - 1, last, rest);
    }
  }

  /** A group that needs one byte more than the `left` bytes it is tested for. */
  function Underestimated(left: nat): (g: string)
    requires left < 3
    ensures |g| == 4
  {
    if left == 0 then "A===" else if left == 1 then "=A=A" else "=AAA"
  }

  lemma UnderestimatedDoesNotFit(left: nat, written: nat, capacity: nat)
    requires left < 3 && written + left == capacity < TWO_64 - 1
    ensures var g := Underestimated(left);
            GroupReadable(g) && RoomFor(written, Pads(g), capacity) && written + |GroupBytes(g)| > capacity
  {
    assert Value('A') == 0;
  }

  lemma FullGroupFits(written: nat, capacity: nat)
    requires written + 3 <= capacity < TWO_64 - 1
    ensures GroupReadable("AAAA") && RoomFor(written, Pads("AAAA"), capacity) && |GroupBytes("AAAA")| == 3
  {
    assert Value('A') == 0;
    RoomFailsOnlyForLeadingPadding(written, 0, capacity);
  }

  lemma {:induction false} CrowdedOverruns(k: nat, rest: string, written: nat, capacity: nat)
    requires written + 3 * k <= capacity < TWO_64 - 1 && capacity - (written + 3 * k) < 3
    ensures !StaysInside(Crowded(k, Underestimated(capacity - (written + 3 * k)), rest), written, capacity)
  {
    hide GroupReadable, RoomFor, Pads, GroupBytes, Underestimated;
    var left := capacity - (written + 3 * k);
    var text := Crowded(k, Underestimated(left), rest);
    if k == 0 {
      assert text[..4] == Underestimated(left);
      UnderestimatedDoesNotFit(left, written, capacity);
    } else {
      assert text[..4] == "AAAA" && text[4..] == Crowded(k - 1, Underestimated(left), rest);
      FullGroupFits(written, capacity);
      CrowdedOverruns(k - 1, rest, written + 3, capacity);
    }
  }

  /** Every text of a length decodes inside the buffer if and only if there are three bytes for each of its groups. */
  lemma BufferSufficesExactlyWithThreeBytesPerGroup(n: nat, capacity: nat)
    requires n % 4 == 0 && capacity < TWO_64 - 1
    ensures (forall text: string :: |text| == n ==> StaysInside(text, 0, capacity)) <==> n / 4 * 3 <= capacity
  {
    hide StaysInside;
    if n / 4 * 3 <= capacity {
      forall text: string | |text| == n
        ensures StaysInside(text, 0, capacity)
      {
        ThreeBytesPerGroupSuffice(text, 0, capacity);
      }
    } else {
      var k := capacity / 3;
      var rest := seq(n - 4 * k - 4, i => 'A');
      CrowdedLength(k, Underestimated(capacity - 3 * k), rest);
      CrowdedOverruns(k, rest, 0, capacity);
    }
  }

  // ---------------------------------------------------------------- the loops

  lemma EncodeStep(b: seq<byte>, i: nat, n: nat)
    requires i < |b| && n == if |b| - i < 3 then |b| - i else 3
    ensures Encode(b[i..]) == EncodeGroup(b[i..i + n]) + Encode(b[i + n..])
  {
    assert b[i..][..n] == b[i..i + n] && b[i..][n..] == b[i + n..];
  }

  method StoreGroup(out: array<char>, j: nat, g: string)
    requires |g| == 4 && j + 4 <= out.Length
    modifies out
    ensures out[..j + 4] == old(out[..j]) + g
  {
    out[j], out[j + 1], out[j + 2], out[j + 3] := g[0], g[1], g[2], g[3];
  }

  /** Encode into a buffer that must also hold the terminator. */
  method EncodeInto(b: seq<byte>, out: array<char>) returns (length: Option<nat>)
    modifies out
    ensures length.Some? <==> |Encode(b)| + 1 <= out.Length
    ensures length.Some? ==>
              length.value == |Encode(b)| && out[..length.value] == Encode(b) && out[length.value] == '\0'
  {
    hide EncodeGroup, Encode;
    EncodedLength(b);
    if out.Length < (|b| + 2) / 3 * 4 + 1 {
      return None;
    }
    var i, j := 0, 0;
    assert b[0..] == b;
    while i < |b|
      invariant i <= |b| && j + |Encode(b[i..])| == |Encode(b)|
      invariant out[..j] + Encode(b[i..]) == Encode(b)
    {
      var n := if |b| - i < 3 then |b| - i else 3;
      EncodeStep(b, i, n);
      StoreGroup(out, j, EncodeGroup(b[i..i + n]));
      i, j := i + n, j + 4;
    }
    EncodedLength(b[i..]);
    out[j] := '\0';
    return Some(j);
  }

  method CountPads(g: string) returns (ok: bool, decodedCount: nat)
    requires |g| == 4
    ensures ok <==> GroupReadable(g)
    ensures ok ==> decodedCount == (TWO_64 + 3 - Pads(g)) % TWO_64
  {
    ok, decodedCount := true, 3;
    ghost var pads := 0;
    for i := 0 to 4
      invariant decodedCount == (TWO_64 + 3 - pads) % TWO_64 && pads <= i
      invariant pads == (if i > 0 && g[0] == '=' then 1 else 0) + (if i > 1 && g[1] == '=' then 1 else 0) +
                        (if i > 2 && g[2] == '=' then 1 else 0) + (if i > 3 && g[3] == '=' then 1 else 0)
      invariant forall k :: 0 <= k < i ==> Readable(g[k])
    {
      if g[i] == '=' {
        decodedCount := (decodedCount + TWO_64 - 1) % TWO_64;
        pads := pads + 1;
      } else if Value(g[i]) < 0 {
        return false, 0;
      }
    }
  }

  method StoreBytes(out: array<byte>, j: nat, b: seq<byte>)
    requires j + |b| <= out.Length
    modifies out
    ensures out[..j + |b|] == old(out[..j]) + b
  {
    for k := 0 to |b|
      invariant out[..j + k] == old(out[..j]) + b[..k]
    {
      out[j + k] := b[k];
    }
  }

  /** `done` has been written and `text` remains to be decoded. */
  ghost function Remaining(done: seq<byte>, text: string, capacity: nat): Option<seq<byte>> {
    match DecodeFrom(text, |done|, capacity)
    case None => None
    case Some(rest) => Some(done + rest)
  }

  lemma RemainingEnds(text: string, capacity: nat, done: seq<byte>)
    ensures Remaining([], text, capacity) == DecodeFrom(text, 0, capacity)
    ensures Remaining(done, [], capacity) == Some(done)
  {
    var all := DecodeFrom(text, 0, capacity);
    if all.Some? {
      assert [] + all.value == all.value;
    }
    assert done + [] == done;
  }

  lemma RemainingStep(done: seq<byte>, text: string, capacity: nat)
    requires |text| >= 4
    ensures Remaining(done, text, capacity) ==
            if GroupReadable(text[..4]) && RoomFor(|done|, Pads(text[..4]), capacity)
            then Remaining(done + GroupBytes(text[..4]), text[4..], capacity) else None
  {
    var b := GroupBytes(text[..4]);
    hide GroupBytes, Pads, GroupReadable, RoomFor;
    var rest := DecodeFrom(text[4..], |done| + |b|, capacity);
    if rest.Some? {
      assert done + (b + rest.value) == (done + b) + rest.value;
    }
  }

  method DecodeGroup(text: string, i: nat, out: array<byte>, j: nat) returns (n: Option<nat>)
    requires |text| % 4 == 0 && i % 4 == 0 && i < |text| && j <= out.Length && StaysInside(text[i..], j, out.Length)
    modifies out
    ensures n.Some? ==> 0 < n.value <= 3 && j + n.value <= out.Length
    ensures n.Some? ==> StaysInside(text[i + 4..], j + n.value, out.Length)
    ensures old(Remaining(out[..j], text[i..], out.Length))
         == if n.Some? then Remaining(out[..j + n.value], text[i + 4..], out.Length) else None
  {
    var g := text[i..i + 4];
    RemainingStep(out[..j], text[i..], out.Length);
    assert text[i..][..4] == g && text[i..][4..] == text[i + 4..];
    assert GroupReadable(g) && RoomFor(j, Pads(g), out.Length) ==>
        j + |GroupBytes(g)| <= out.Length && StaysInside(text[i + 4..], j + |GroupBytes(g)|, out.Length);
    hide StaysInside, GroupBytes, Pads, GroupReadable, Remaining;
    var ok, decodedCount := CountPads(g);
    if !ok || (j + decodedCount) % TWO_64 > out.Length {
      return None;
    }
    var b := GroupBytes(g);
    StoreBytes(out, j, b);
    n := Some(|b|);
  }

  /** Decode into a buffer in which every write the text causes has its place. */
  method DecodeInto(text: string, out: array<byte>) returns (length: Option<nat>)
    requires |text| % 4 == 0 ==> StaysInside(text, 0, out.Length)
    modifies out
    ensures length.Some? <==> Decode(text, out.Length).Some?
    ensures length.Some? ==> length.value <= out.Length && out[..length.value] == Decode(text, out.Length).value
  {
    if |text| % 4 != 0 {
      return None;
    }
    RemainingEnds(text, out.Length, []);
    assert Decode(text, out.Length) == DecodeFrom(text, 0, out.Length);
    assert text[0..] == text && out[..0] == [];
    hide Decode, Remaining, DecodeFrom, StaysInside;
    var i, j := 0, 0;
    while i < |text|
      invariant i <= |text| && i % 4 == 0 && 0 <= j <= out.Length
      invariant StaysInside(text[i..], j, out.Length)
      invariant Remaining(out[..j], text[i..], out.Length) == DecodeFrom(text, 0, out.Length)
    {
      assert i + 4 <= |text| && (i + 4) % 4 == 0;
      var n := DecodeGroup(text, i, out, j);
      if n == None {
        return None;
      }
      i, j := i + 4, j + n.value;
    }
    assert text[i..] == [];
    RemainingEnds(text, out.Length, out[..j]);
    return Some(j);
  }
}
