/** Hexadecimal text (section 8 of RFC 4648, in lower case) for tokens and digests. */
module Hex {
  import opened Bytes

  function Digit(v: nat): char
    requires v < 16
  {
    if v < 10 then '0' + v as char else 'a' + (v - 10) as char
  }

  /** The four-bit value of a character of either case, or -1. */
  function Nibble(c: char): (v: int)
    ensures -1 <= v < 16
  {
    if '0' <= c <= '9' then c as int - '0' as int
    else if 'a' <= c <= 'f' then c as int - 'a' as int + 10
    else if 'A' <= c <= 'F' then c as int - 'A' as int + 10
    else -1
  }

  function Encode(b: seq<byte>): string {
    if |b| == 0 then [] else [Digit(b[0] / 16), Digit(b[0] % 16)] + Encode(b[1..])
  }

  /** Decode the whole pairs of a text. */
  function DecodePairs(t: string): Option<seq<byte>> {
    if |t| < 2 then Some([])
    else if Nibble(t[0]) < 0 || Nibble(t[1]) < 0 then None
    else
      match DecodePairs(t[2..])
      case None => None
      case Some(rest) => var v: byte := Nibble(t[0]) * 16 + Nibble(t[1]); Some([v] + rest)
  }

  function Decode(t: string, capacity: nat): Option<seq<byte>> {
    if |t| % 2 != 0 || capacity < |t| / 2 then None else DecodePairs(t)
  }

  function Lower(c: char): char {
    if 'A' <= c <= 'Z' then c + 32 as char else c
  }

  function LowerCase(t: string): string {
    if |t| == 0 then [] else [Lower(t[0])] + LowerCase(t[1..])
  }

  lemma DigitRoundTrip(v: nat, c: char)
    ensures v < 16 ==> Nibble(Digit(v)) == v
    ensures Nibble(c) >= 0 ==> Digit(Nibble(c)) == Lower(c)
  {
  }

  lemma {:induction false} EncodedLength(b: seq<byte>)
    ensures |Encode(b)| == 2 * |b|
  {
    if |b| > 0 {
      EncodedLength(b[1..]);
    }
  }

  lemma {:induction false} PairsRoundTrip(b: seq<byte>)
    ensures DecodePairs(Encode(b)) == Some(b)
  {
    if |b| > 0 {
      DigitRoundTrip(b[0] / 16, '0');
      DigitRoundTrip(b[0] % 16, '0');
      PairsRoundTrip(b[1..]);
      assert Encode(b)[2..] == Encode(b[1..]);
      assert b == [b[0]] + b[1..];
    }
  }

  /** Every byte string decodes from its text when there is room for it. */
  lemma RoundTrip(b: seq<byte>, capacity: nat)
    requires |b| <= capacity
    ensures |Encode(b)| == 2 * |b| && Decode(Encode(b), capacity) == Some(b)
  {
    hide Encode, DecodePairs;
    EncodedLength(b);
    PairsRoundTrip(b);
  }

  lemma {:induction false} PairsEncodeBack(t: string)
    requires |t| % 2 == 0
    ensures DecodePairs(t).Some? <==> forall i :: 0 <= i < |t| ==> Nibble(t[i]) >= 0
    ensures DecodePairs(t).Some? ==> Encode(DecodePairs(t).value) == LowerCase(t)
  {
    hide Nibble, Digit, Lower;
    if |t| > 0 {
      var rest := DecodePairs(t[2..]);
      PairsEncodeBack(t[2..]);
      assert t == [t[0], t[1]] + t[2..];
      assert LowerCase(t) == [Lower(t[0]), Lower(t[1])] + LowerCase(t[2..]) by {
        assert t[1..][1..] == t[2..];
      }
      if Nibble(t[0]) >= 0 && Nibble(t[1]) >= 0 && rest.Some? {
        DigitRoundTrip(0, t[0]);
        DigitRoundTrip(0, t[1]);
        var v := Nibble(t[0]) * 16 + Nibble(t[1]);
        assert v / 16 == Nibble(t[0]) && v % 16 == Nibble(t[1]);
        assert DecodePairs(t).value[1..] == rest.value;
      }
    }
  }

  /** Accepted exactly when there are evenly many hexadecimal digits that fit; re-encoding only changes their case. */
  lemma AcceptedExactly(t: string, capacity: nat)
    ensures Decode(t, capacity).Some? <==>
              |t| % 2 == 0 && |t| / 2 <= capacity && forall i :: 0 <= i < |t| ==> Nibble(t[i]) >= 0
    ensures Decode(t, capacity).Some? ==> Encode(Decode(t, capacity).value) == LowerCase(t)
  {
    if |t| % 2 == 0 {
      PairsEncodeBack(t);
    }
  }

  lemma EncodeStep(b: seq<byte>, i: nat)
    requires i < |b|
    ensures Encode(b[i..]) == [Digit(b[i] / 16), Digit(b[i] % 16)] + Encode(b[i + 1..])
  {
    assert b[i..][1..] == b[i + 1..];
  }

  /** Encode into a buffer that must also hold the terminator. */
  method EncodeInto(b: seq<byte>, out: array<char>) returns (ok: bool)
    modifies out
    ensures ok <==> 2 * |b| + 1 <= out.Length
    ensures ok ==> out[..2 * |b|] == Encode(b) && out[2 * |b|] == '\0'
  {
    if out.Length < |b| * 2 + 1 {
      return false;
    }
    hide Encode, Digit;
    assert b[0..] == b;
    for i := 0 to |b|
      invariant out[..2 * i] + Encode(b[i..]) == Encode(b)
    {
      EncodeStep(b, i);
      out[2 * i], out[2 * i + 1] := Digit(b[i] / 16), Digit(b[i] % 16);
    }
    EncodedLength(b[|b|..]);
    out[2 * |b|] := '\0';
    ok := true;
  }

  /** `done` has been decoded and `t` remains. */
  ghost function Remaining(done: seq<byte>, t: string): Option<seq<byte>> {
    match DecodePairs(t)
    case None => None
    case Some(rest) => Some(done + rest)
  }

  lemma RemainingStep(done: seq<byte>, t: string)
    requires |t| >= 2
    ensures Remaining(done, t) == if Nibble(t[0]) < 0 || Nibble(t[1]) < 0 then None
                                  else Remaining(done + [Nibble(t[0]) * 16 + Nibble(t[1])], t[2..])
  {
    var rest := DecodePairs(t[2..]);
    if Nibble(t[0]) >= 0 && Nibble(t[1]) >= 0 && rest.Some? {
      var v: byte := Nibble(t[0]) * 16 + Nibble(t[1]);
      assert done + ([v] + rest.value) == (done + [v]) + rest.value;
    }
  }

  lemma RemainingEnds(t: string, done: seq<byte>)
    ensures Remaining([], t) == DecodePairs(t) && Remaining(done, []) == Some(done)
  {
    if DecodePairs(t).Some? {
      assert [] + DecodePairs(t).value == DecodePairs(t).value;
    }
    assert done + [] == done;
  }

  method DecodeInto(t: string, out: array<byte>) returns (length: Option<nat>)
    modifies out
    ensures length.Some? <==> Decode(t, out.Length).Some?
    ensures length.Some? ==> length.value <= out.Length && out[..length.value] == Decode(t, out.Length).value
  {
    if |t| % 2 != 0 || out.Length < |t| / 2 {
      return None;
    }
    RemainingEnds(t, []);
    assert t[0..] == t && out[..0] == [];
    var i := 0;
    while i < |t| / 2
      invariant 0 <= i <= |t| / 2
      invariant Remaining(out[..i], t[2 * i..]) == DecodePairs(t)
    {
      hide DecodePairs, Nibble, Remaining;
      RemainingStep(out[..i], t[2 * i..]);
      var high, low := Nibble(t[2 * i]), Nibble(t[2 * i + 1]);
      if high < 0 || low < 0 {
        return None;
      }
      ghost var before := out[..i];
      out[i] := high * 16 + low;
      assert out[..i + 1] == before + [high * 16 + low];
      assert t[2 * i..][2..] == t[2 * (i + 1)..];
      i := i + 1;
    }
    assert t[2 * i..] == [];
    RemainingEnds(t, out[..i]);
    length := Some(i);
  }
}
