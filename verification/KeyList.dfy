/**
 The list of keys a purge names: the JSON text the command-line client writes, the small parser the
 server reads it with, and when the two agree.
 */
module KeyList {
  import opened Bytes

  type Text = seq<byte>

  const QUOTE: byte := 34
  const COMMA: byte := 44
  const SLASH: byte := 47
  const COLON: byte := 58
  const OPEN: byte := 91
  const BACKSLASH: byte := 92
  const CLOSE: byte := 93
  const NEWLINE: byte := 10
  const RETURN: byte := 13
  const TAB: byte := 9
  const LETTER_N: byte := 110
  const LETTER_R: byte := 114
  const LETTER_T: byte := 116
  const LETTER_U: byte := 117

  const ARRAY_LIMIT: nat := 256
  const ESCAPE_EXPANSION: nat := 6

  /** {"keys":[ and ]} and the label "keys" with its quotes. */
  const PREFIX: Text := [123, 34, 107, 101, 121, 115, 34, 58, 91]
  const SUFFIX: Text := [93, 125]
  const LABEL: Text := [34, 107, 101, 121, 115, 34]

  // ---------------------------------------------------------------- what the client writes

  function HexDigit(n: nat): byte
    requires n < 16
  {
    if n < 10 then 48 + n else 87 + n
  }

  function EscapeByte(c: byte): (s: Text)
    ensures 1 <= |s| <= ESCAPE_EXPANSION
  {
    if c == BACKSLASH || c == QUOTE then [BACKSLASH, c]
    else if c == NEWLINE then [BACKSLASH, LETTER_N]
    else if c == RETURN then [BACKSLASH, LETTER_R]
    else if c == TAB then [BACKSLASH, LETTER_T]
    else if c < 0x20 then [BACKSLASH, LETTER_U, 48, 48, HexDigit(c / 16), HexDigit(c % 16)]
    else [c]
  }

  function Escape(k: Text): Text {
    if |k| == 0 then [] else EscapeByte(k[0]) + Escape(k[1..])
  }

  function Quoted(k: Text): Text {
    [QUOTE] + Escape(k) + [QUOTE]
  }

  /** The quoted keys from the first on, separated by commas. */
  function Items(keys: seq<Text>): Text
    requires |keys| > 0
  {
    if |keys| == 1 then Quoted(keys[0]) else Quoted(keys[0]) + [COMMA] + Items(keys[1..])
  }

  function Body(keys: seq<Text>): Text
    requires |keys| > 0
  {
    PREFIX + Items(keys) + SUFFIX
  }

  // ---------------------------------------------------------------- what the server reads

  datatype Parsed<+T> = Refused | Got(value: T, rest: Text)

  predicate IsSpace(c: byte) {
    c == 32 || 9 <= c <= 13
  }

  function Skip(s: Text): (r: Text)
    ensures |r| <= |s|
  {
    if |s| > 0 && IsSpace(s[0]) then Skip(s[1..]) else s
  }

  function Unescape(c: byte): Option<byte> {
    if c == QUOTE || c == BACKSLASH || c == SLASH then Some(c)
    else if c == LETTER_N then Some(NEWLINE)
    else if c == LETTER_R then Some(RETURN)
    else if c == LETTER_T then Some(TAB)
    else None
  }

  /** One character of a string, after its opening quote. */
  function ParseChar(s: Text): (r: Parsed<byte>)
    ensures r.Got? ==> |r.rest| < |s|
  {
    if |s| == 0 then Refused
    else if s[0] != BACKSLASH then Got(s[0], s[1..])
    else if |s| == 1 then Refused
    else
      match Unescape(s[1])
      case None => Refused
      case Some(c) => Got(c, s[2..])
  }

  /** The rest of a string up to its closing quote. */
  function ParseString(s: Text): (r: Parsed<Text>)
    ensures r.Got? ==> |r.rest| < |s|
    decreases |s|
  {
    if |s| > 0 && s[0] == QUOTE then Got([], s[1..])
    else
      match ParseChar(s)
      case Refused => Refused
      case Got(c, rest) =>
        match ParseString(rest)
        case Refused => Refused
        case Got(k, rest) => Got([c] + k, rest)
  }

  /** One quoted key and the spaces after it. */
  function ParseItem(s: Text): (r: Parsed<Text>)
    ensures r.Got? ==> |r.rest| < |s|
  {
    if |s| == 0 || s[0] != QUOTE then Refused
    else
      match ParseString(s[1..])
      case Refused => Refused
      case Got(k, rest) => Got(k, Skip(rest))
  }

  /** The keys from here to the closing bracket, when `n` have been read before. */
  function ParseItems(s: Text, n: nat): Option<seq<Text>>
    decreases |s|
  {
    if n >= ARRAY_LIMIT then None
    else
      match ParseItem(s)
      case Refused => None
      case Got(k, rest) =>
        if |rest| == 0 then None
        else if rest[0] == CLOSE then Some([k])
        else if rest[0] != COMMA then None
        else
          match ParseItems(Skip(rest[1..]), n + 1)
          case None => None
          case Some(ks) => Some([k] + ks)
  }

  function ParseArray(s: Text): Option<seq<Text>> {
    if |s| == 0 || s[0] != OPEN then None
    else
      var t := Skip(s[1..]);
      if |t| > 0 && t[0] == CLOSE then Some([]) else ParseItems(t, 0)
  }

  /** The text from the first occurrence of a pattern on. */
  function From(s: Text, pattern: Text): (r: Option<Text>)
    ensures r.Some? ==> pattern <= r.value
  {
    if pattern <= s then Some(s) else if |s| == 0 then None else From(s[1..], pattern)
  }

  function ParseText(body: Text): Option<seq<Text>> {
    match From(body, LABEL)
    case None => None
    case Some(field) =>
      match From(field, [COLON])
      case None => None
      case Some(value) => ParseArray(Skip(value[1..]))
  }

  /** The body is read as a C string: nothing behind its first NUL is seen. */
  function ParseKeys(body: Text): Option<seq<Text>> {
    ParseText(UpToNul(body))
  }

  // ---------------------------------------------------------------- when they agree

  /** A key without control characters other than newline, carriage return and tab. */
  predicate Plain(k: Text) {
    forall i :: 0 <= i < |k| ==> PlainByte(k[i])
  }

  predicate PlainByte(c: byte) {
    c >= 0x20 || c == NEWLINE || c == RETURN || c == TAB
  }

  lemma EscapedByteReads(c: byte, rest: Text)
    ensures ParseChar(EscapeByte(c) + rest) == if PlainByte(c) then Got(c, rest) else Refused
    ensures EscapeByte(c)[0] != QUOTE
  {
    var s := EscapeByte(c) + rest;
    assert s[0] == EscapeByte(c)[0];
    if |EscapeByte(c)| == 1 {
      assert s[1..] == rest;
    } else {
      assert s[1] == EscapeByte(c)[1];
      if |EscapeByte(c)| == 2 {
        assert s[2..] == rest;
      }
    }
  }

  lemma {:induction false} EscapedKeyReads(k: Text, rest: Text)
    ensures ParseString(Escape(k) + [QUOTE] + rest) == if Plain(k) then Got(k, rest) else Refused
  {
    var s := Escape(k) + [QUOTE] + rest;
    if |k| == 0 {
      assert s[0] == QUOTE && s[1..] == rest;
    } else {
      var t := Escape(k[1..]) + [QUOTE] + rest;
      assert s == EscapeByte(k[0]) + t;
      EscapedByteReads(k[0], t);
      EscapedKeyReads(k[1..], rest);
      assert s[0] == EscapeByte(k[0])[0];
      assert k == [k[0]] + k[1..];
      assert Plain(k) <==> PlainByte(k[0]) && Plain(k[1..]);
    }
  }

  lemma QuotedKeyReads(k: Text, rest: Text)
    requires |rest| > 0 && !IsSpace(rest[0])
    ensures ParseItem(Quoted(k) + rest) == if Plain(k) then Got(k, rest) else Refused
  {
    var s := Quoted(k) + rest;
    assert s[0] == QUOTE && s[1..] == Escape(k) + [QUOTE] + rest;
    EscapedKeyReads(k, rest);
  }

  predicate AllPlain(keys: seq<Text>) {
    forall i :: 0 <= i < |keys| ==> Plain(keys[i])
  }

  lemma {:induction false} ItemsRead(keys: seq<Text>, n: nat)
    requires |keys| > 0
    ensures ParseItems(Items(keys) + SUFFIX, n) ==
            if AllPlain(keys) && n + |keys| <= ARRAY_LIMIT then Some(keys) else None
    decreases |keys|
  {
    hide ParseItem, Quoted, Plain;
    if |keys| == 1 {
      QuotedKeyReads(keys[0], SUFFIX);
      assert AllPlain(keys) <==> Plain(keys[0]);
      assert keys == [keys[0]];
    } else {
      var s, rest := Items(keys) + SUFFIX, [COMMA] + (Items(keys[1..]) + SUFFIX);
      assert s == Quoted(keys[0]) + rest;
      QuotedKeyReads(keys[0], rest);
      assert rest[1..] == Items(keys[1..]) + SUFFIX;
      ItemsStartWithQuote(keys[1..]);
      ItemsRead(keys[1..], n + 1);
      assert keys == [keys[0]] + keys[1..];
      assert AllPlain(keys) <==> Plain(keys[0]) && AllPlain(keys[1..]);
    }
  }

  lemma ItemsStartWithQuote(keys: seq<Text>)
    requires |keys| > 0
    ensures |Items(keys)| > 0 && Items(keys)[0] == QUOTE
    ensures Skip(Items(keys) + SUFFIX) == Items(keys) + SUFFIX
  {
  }

  /** The label and the colon are found in the text's own head, whatever the keys are. */
  lemma HeadIsFound(rest: Text)
    ensures From(PREFIX + rest, LABEL) == Some(LABEL + [COLON, OPEN] + rest)
    ensures From(LABEL + [COLON, OPEN] + rest, [COLON]) == Some([COLON, OPEN] + rest)
  {
    var s := PREFIX + rest;
    var field := LABEL + [COLON, OPEN] + rest;
    assert s[0] == 123 && LABEL[0] == 34;
    assert s[1..] == field && LABEL <= field;
    assert field[0] == 34 && field[1..][0] == 107 && field[2..][0] == 101;
    assert field[3..][0] == 121 && field[4..][0] == 115 && field[5..][0] == 34;
    assert field[6..] == [COLON, OPEN] + rest && [COLON] <= field[6..];
    FromSkips(field, [COLON], 6);
    FromSkips(s, LABEL, 1);
  }

  lemma {:induction false} FromSkips(s: Text, pattern: Text, n: nat)
    requires n <= |s| && forall i :: 0 <= i < n ==> !(pattern <= s[i..])
    ensures From(s, pattern) == From(s[n..], pattern)
    decreases n
  {
    if n > 0 {
      assert s[0..] == s;
      forall i | 0 <= i < n - 1
        ensures !(pattern <= s[1..][i..])
      {
        assert s[1..][i..] == s[i + 1..];
      }
      FromSkips(s[1..], pattern, n - 1);
      assert s[1..][n - 1..] == s[n..];
    } else {
      assert s[0..] == s;
    }
  }

  predicate NoNul(s: Text) {
    forall i :: 0 <= i < |s| ==> s[i] != 0
  }

  lemma {:induction false} EscapedHasNoNul(k: Text)
    ensures NoNul(Escape(k))
  {
    if |k| > 0 {
      EscapedHasNoNul(k[1..]);
      assert NoNul(EscapeByte(k[0]));
    }
  }

  lemma {:induction false} ItemsHaveNoNul(keys: seq<Text>)
    requires |keys| > 0
    ensures NoNul(Items(keys))
    decreases |keys|
  {
    EscapedHasNoNul(keys[0]);
    hide Escape;
    if |keys| > 1 {
      ItemsHaveNoNul(keys[1..]);
    }
  }

  /** Escaping leaves no NUL, so the server sees the whole body. */
  lemma BodyHasNoNul(keys: seq<Text>)
    requires |keys| > 0
    ensures UpToNul(Body(keys)) == Body(keys)
  {
    ItemsHaveNoNul(keys);
    hide Items, UpToNul;
    NoNulToCutAt(Body(keys));
  }

  /**
   The server reads back exactly the keys the client was given if there are at most 256 and none has a
   control character other than newline, carriage return and tab; otherwise it refuses the request.
   */
  lemma KeysReadBackExactlyWhen(keys: seq<Text>)
    requires |keys| > 0
    ensures ParseKeys(Body(keys)) == if AllPlain(keys) && |keys| <= ARRAY_LIMIT then Some(keys) else None
  {
    hide ParseItems, From;
    BodyHasNoNul(keys);
    var rest := Items(keys) + SUFFIX;
    assert Body(keys) == PREFIX + rest;
    HeadIsFound(rest);
    var value := [COLON, OPEN] + rest;
    assert value[1..] == [OPEN] + rest && ([OPEN] + rest)[1..] == rest;
    ItemsStartWithQuote(keys);
    ItemsRead(keys, 0);
  }

  // ---------------------------------------------------------------- sizes

  lemma {:induction false} ParsedStringIsShorter(s: Text)
    ensures ParseString(s).Got? ==> |ParseString(s).value| + |ParseString(s).rest| < |s|
    decreases |s|
  {
    if !(|s| > 0 && s[0] == QUOTE) && ParseChar(s).Got? {
      ParsedStringIsShorter(ParseChar(s).rest);
    }
  }

  lemma {:induction false} ParsedItemsAreShorter(s: Text, n: nat)
    ensures ParseItems(s, n).Some? ==>
              forall i :: 0 <= i < |ParseItems(s, n).value| ==> |ParseItems(s, n).value[i]| < |s|
    decreases |s|
  {
    var r := ParseItem(s);
    if r.Got? {
      ParsedStringIsShorter(s[1..]);
      if |r.rest| > 0 {
        ParsedItemsAreShorter(Skip(r.rest[1..]), n + 1);
      }
    }
  }

  lemma {:induction false} FoundIsShorter(s: Text, pattern: Text)
    ensures From(s, pattern).Some? ==> |From(s, pattern).value| <= |s|
  {
    if |s| > 0 {
      FoundIsShorter(s[1..], pattern);
    }
  }

  lemma {:induction false} CutIsShorter(s: Text)
    ensures |UpToNul(s)| <= |s|
  {
    if |s| > 0 {
      CutIsShorter(s[1..]);
    }
  }

  /** Every key read from a body is shorter than the body. */
  lemma ParsedKeysAreShorter(body: Text)
    ensures ParseKeys(body).Some? ==>
              forall i :: 0 <= i < |ParseKeys(body).value| ==> |ParseKeys(body).value[i]| < |body|
  {
    hide ParseItems, From, UpToNul;
    var text := UpToNul(body);
    CutIsShorter(body);
    FoundIsShorter(text, LABEL);
    var field := From(text, LABEL);
    if field.Some? {
      FoundIsShorter(field.value, [COLON]);
      var value := From(field.value, [COLON]);
      if value.Some? {
        var s := Skip(value.value[1..]);
        if |s| > 0 {
          ParsedItemsAreShorter(Skip(s[1..]), 0);
        }
      }
    }
  }

  // ---------------------------------------------------------------- the client's buffers

  lemma {:induction false} EscapeSnoc(k: Text, c: byte)
    ensures Escape(k + [c]) == Escape(k) + EscapeByte(c)
  {
    if |k| == 0 {
      assert k + [c] == [c];
    } else {
      assert (k + [c])[1..] == k[1..] + [c];
      EscapeSnoc(k[1..], c);
    }
  }

  method Store(out: array<byte>, at: nat, s: Text)
    requires at + |s| <= out.Length
    modifies out
    ensures out[..at + |s|] == old(out[..at]) + s
  {
    for i := 0 to |s|
      invariant out[..at + i] == old(out[..at]) + s[..i]
    {
      out[at + i] := s[i];
    }
  }

  /** Six bytes for each byte of the key, and a terminator, are always enough. */
  method EscapeKey(k: Text) returns (escaped: array<byte>, length: nat)
    ensures escaped.Length == |k| * ESCAPE_EXPANSION + 1 && fresh(escaped)
    ensures length < escaped.Length && escaped[..length] == Escape(k) && escaped[length] == 0
  {
    escaped := new byte[|k| * ESCAPE_EXPANSION + 1];
    length := 0;
    for i := 0 to |k|
      invariant length <= i * ESCAPE_EXPANSION && escaped[..length] == Escape(k[..i])
    {
      EscapeSnoc(k[..i], k[i]);
      assert k[..i + 1] == k[..i] + [k[i]];
      var s := EscapeByte(k[i]);
      Store(escaped, length, s);
      length := length + |s|;
    }
    assert k[..|k|] == k;
    escaped[length] := 0;
  }

  function Capacity(keys: seq<Text>): nat {
    if |keys| == 0 then 16 else Capacity(keys[..|keys| - 1]) + |keys[|keys| - 1]| * ESCAPE_EXPANSION + 4
  }

  /** What has been written before the closing bracket. */
  function Started(keys: seq<Text>): Text {
    if |keys| == 0 then PREFIX else PREFIX + Items(keys)
  }

  lemma {:induction false} ItemsSnoc(keys: seq<Text>, k: Text)
    requires |keys| > 0
    ensures Items(keys + [k]) == Items(keys) + [COMMA] + Quoted(k)
    decreases |keys|
  {
    hide Quoted;
    assert (keys + [k])[1..] == keys[1..] + [k] && (keys + [k])[0] == keys[0];
    if |keys| > 1 {
      ItemsSnoc(keys[1..], k);
    } else {
      assert keys[1..] + [k] == [k];
    }
  }

  lemma StartedSnoc(keys: seq<Text>, k: Text)
    ensures Started(keys + [k]) == Started(keys) + (if |keys| == 0 then [] else [COMMA]) + Quoted(k)
  {
    if |keys| == 0 {
      assert keys + [k] == [k];
    } else {
      ItemsSnoc(keys, k);
    }
  }

  method MeasureBody(keys: seq<Text>) returns (capacity: nat)
    ensures capacity == Capacity(keys)
  {
    capacity := 16;
    for i := 0 to |keys|
      invariant capacity == Capacity(keys[..i])
    {
      assert keys[..i + 1][..i] == keys[..i];
      capacity := capacity + |keys[i]| * ESCAPE_EXPANSION + 4;
    }
    assert keys[..|keys|] == keys;
  }

  lemma {:induction false} CapacityGrows(keys: seq<Text>, n: nat)
    requires n <= |keys|
    ensures Capacity(keys[..n]) <= Capacity(keys)
  {
    if n < |keys| {
      CapacityGrows(keys[..|keys| - 1], n);
      assert keys[..|keys| - 1][..n] == keys[..n];
    } else {
      assert keys[..n] == keys;
    }
  }

  /** Add one key to the body; `None` when it would not fit. */
  method WriteItem(body: array<byte>, length: nat, first: bool, k: Text) returns (next: Option<nat>)
    requires length <= body.Length
    modifies body
    ensures next.Some? <==> length + (if first then 0 else 1) + |Quoted(k)| < body.Length
    ensures next.Some? ==>
              next.value <= body.Length &&
              body[..next.value] == old(body[..length]) + (if first then [] else [COMMA]) + Quoted(k)
  {
    var escaped, escapedLength := EscapeKey(k);
    var item := (if first then [] else [COMMA]) + [QUOTE] + escaped[..escapedLength] + [QUOTE];
    assert item == (if first then [] else [COMMA]) + Quoted(k);
    hide Quoted, Escape;
    if |item| >= body.Length - length {
      return None;
    }
    ghost var before, separator := body[..length], if first then [] else [COMMA];
    Store(body, length, item);
    next := Some(length + |item|);
    assert before + (separator + Quoted(k)) == before + separator + Quoted(k);
  }

  lemma EscapedLength(k: Text)
    ensures |Quoted(k)| <= |k| * ESCAPE_EXPANSION + 2
  {
    EscapeExpands(k);
  }

  lemma {:induction false} EscapeExpands(k: Text)
    ensures |Escape(k)| <= |k| * ESCAPE_EXPANSION
  {
    if |k| > 0 {
      EscapeExpands(k[1..]);
    }
  }

  /** The first `i` keys are in the body, with room to spare. */
  ghost predicate Written(body: seq<byte>, length: int, keys: seq<Text>, i: nat)
    requires i <= |keys|
  {
    0 <= length <= |body| && length + 7 <= Capacity(keys[..i]) && Capacity(keys) == |body|
        && body[..length] == Started(keys[..i])
  }

  lemma NextItem(body: seq<byte>, length: int, keys: seq<Text>, i: nat)
    requires i < |keys| && Written(body, length, keys, i)
    ensures length + (if i == 0 then 0 else 1) + |Quoted(keys[i])| + 7 <= Capacity(keys[..i + 1]) <= |body|
    ensures Started(keys[..i + 1]) == body[..length] + (if i == 0 then [] else [COMMA]) + Quoted(keys[i])
  {
    hide Quoted, Items;
    assert keys[..i + 1] == keys[..i] + [keys[i]] && keys[..i + 1][..i] == keys[..i];
    CapacityGrows(keys, i + 1);
    StartedSnoc(keys[..i], keys[i]);
    EscapedLength(keys[i]);
  }

  method AddItem(body: array<byte>, length: nat, keys: seq<Text>, i: nat) returns (next: Option<nat>)
    requires i < |keys| && Written(body[..], length, keys, i)
    modifies body
    ensures next.Some? && Written(body[..], next.value, keys, i + 1)
  {
    hide Quoted, Items, Started, Capacity;
    NextItem(body[..], length, keys, i);
    assert body[..][..length] == body[..length];
    next := WriteItem(body, length, i == 0, keys[i]);
    assert body[..][..next.value] == body[..next.value];
  }

  method StartBody(keys: seq<Text>) returns (body: array<byte>, length: nat)
    ensures fresh(body) && Written(body[..], length, keys, 0)
  {
    var capacity := MeasureBody(keys);
    CapacityGrows(keys, 0);
    body := new byte[capacity];
    Store(body, 0, PREFIX);
    length := |PREFIX|;
    assert keys[..0] == [] && body[..][..length] == body[..length] == Started([]);
  }

  /** The body is always built: no key list overruns the capacity computed for it. */
  method BuildBody(keys: seq<Text>) returns (body: Option<Text>)
    requires |keys| > 0
    ensures body == Some(Body(keys))
  {
    hide Quoted, Items, Started, Capacity, Body;
    var bytes, length := StartBody(keys);
    for i := 0 to |keys|
      invariant Written(bytes[..], length, keys, i)
    {
      var next := AddItem(bytes, length, keys, i);
      if next == None {
        return None;
      }
      length := next.value;
    }
    assert keys[..|keys|] == keys && bytes[..][..length] == bytes[..length];
    StartedIsTheBody(keys);
    if length + 2 >= bytes.Length {
      return None;
    }
    Store(bytes, length, SUFFIX);
    body := Some(bytes[..length + 2]);
  }

  lemma StartedIsTheBody(keys: seq<Text>)
    requires |keys| > 0
    ensures Started(keys) + SUFFIX == Body(keys)
  {
  }

  // ---------------------------------------------------------------- the server's cursor

  method SkipSpaces(s: Text, i: nat) returns (j: nat)
    requires i <= |s|
    ensures i <= j <= |s| && Skip(s[i..]) == s[j..]
  {
    j := i;
    while j < |s| && IsSpace(s[j])
      invariant i <= j <= |s| && Skip(s[i..]) == Skip(s[j..])
    {
      assert s[j..][1..] == s[j + 1..];
      j := j + 1;
    }
  }

  method Find(s: Text, i: nat, pattern: Text) returns (j: Option<nat>)
    requires i <= |s|
    ensures From(s[i..], pattern) == if j.Some? && j.value <= |s| then Some(s[j.value..]) else None
    ensures j.Some? ==> j.value <= |s|
  {
    var at := i;
    while at < |s| && !(pattern <= s[at..])
      invariant i <= at <= |s| && From(s[i..], pattern) == From(s[at..], pattern)
    {
      assert s[at..][1..] == s[at + 1..];
      at := at + 1;
    }
    j := if pattern <= s[at..] then Some(at) else None;
  }

  /** What reading on gives when `done` has been decoded already. */
  ghost function Prepended(done: Text, r: Parsed<Text>): Parsed<Text> {
    match r
    case Refused => Refused
    case Got(k, rest) => Got(done + k, rest)
  }

  lemma StringStep(done: Text, s: Text)
    requires |s| > 0 && s[0] != QUOTE
    ensures Prepended(done, ParseString(s)) == match ParseChar(s)
                                               case Refused => Refused
                                               case Got(c, rest) => Prepended(done + [c], ParseString(rest))
  {
    hide ParseChar;
    var r := ParseChar(s);
    if r.Got? && ParseString(r.rest).Got? {
      assert done + ([r.value] + ParseString(r.rest).value) == (done + [r.value]) + ParseString(r.rest).value;
    }
  }

  method ReadChar(s: Text, i: nat) returns (ok: bool, c: byte, j: nat)
    requires i < |s|
    ensures i < j <= |s| && ParseChar(s[i..]) == if ok then Got(c, s[j..]) else Refused
  {
    ok, c, j := true, s[i], i + 1;
    if c == BACKSLASH {
      if j == |s| {
        return false, 0, j;
      }
      var plain := Unescape(s[j]);
      assert s[i..][1] == s[j] && s[i..][2..] == s[j + 1..];
      if plain == None {
        return false, 0, j;
      }
      c, j := plain.value, j + 1;
    } else {
      assert s[i..][1..] == s[j..];
    }
  }

  method ReadString(s: Text, i: nat) returns (ok: bool, k: Text, j: nat)
    requires i <= |s|
    ensures i <= j <= |s| && ParseString(s[i..]) == if ok then Got(k, s[j..]) else Refused
    ensures ok ==> i < j
  {
    hide ParseChar;
    ok, k, j := true, [], i;
    PrependedNothing(ParseString(s[i..]));
    while j < |s| && s[j] != QUOTE
      invariant i <= j <= |s| && ParseString(s[i..]) == Prepended(k, ParseString(s[j..]))
    {
      StringStep(k, s[j..]);
      var c;
      ok, c, j := ReadChar(s, j);
      if !ok {
        return;
      }
      k := k + [c];
    }
    StringEnds(s[j..]);
    if j == |s| {
      return false, k, j;
    }
    assert s[j..][1..] == s[j + 1..] && k + [] == k;
    ok, j := true, j + 1;
  }

  lemma PrependedNothing(r: Parsed<Text>)
    ensures Prepended([], r) == r
  {
    if r.Got? {
      assert [] + r.value == r.value;
    }
  }

  lemma StringEnds(s: Text)
    requires |s| == 0 || s[0] == QUOTE
    ensures ParseString(s) == if |s| == 0 then Refused else Got([], s[1..])
  {
  }

  method ReadItem(s: Text, i: nat) returns (ok: bool, k: Text, j: nat)
    requires i <= |s|
    ensures i <= j <= |s| && ParseItem(s[i..]) == if ok then Got(k, s[j..]) else Refused
    ensures ok ==> i < j
  {
    hide ParseString;
    if i == |s| || s[i] != QUOTE {
      return false, [], i;
    }
    assert s[i..][1..] == s[i + 1..];
    ok, k, j := ReadString(s, i + 1);
    if ok {
      j := SkipSpaces(s, j);
    }
  }

  ghost function AfterKeys(done: seq<Text>, r: Option<seq<Text>>): Option<seq<Text>> {
    match r
    case None => None
    case Some(ks) => Some(done + ks)
  }

  lemma ItemsStep(done: seq<Text>, s: Text, n: nat)
    ensures AfterKeys(done, ParseItems(s, n)) ==
            if n >= ARRAY_LIMIT then None
            else
              match ParseItem(s)
              case Refused => None
              case Got(k, rest) =>
                if |rest| == 0 then None
                else if rest[0] == CLOSE then Some(done + [k])
                else if rest[0] != COMMA then None
                else AfterKeys(done + [k], ParseItems(Skip(rest[1..]), n + 1))
  {
    hide ParseItem, Skip;
    var r := ParseItem(s);
    if r.Got? && |r.rest| > 0 {
      var more := ParseItems(Skip(r.rest[1..]), n + 1);
      if more.Some? {
        assert done + ([r.value] + more.value) == (done + [r.value]) + more.value;
      }
    }
  }

  method ReadItems(s: Text, i: nat) returns (keys: Option<seq<Text>>)
    requires i <= |s|
    ensures keys == ParseItems(s[i..], 0)
  {
    hide ParseItem, ParseItems;
    ghost var whole := ParseItems(s[i..], 0);
    var j: nat, done: seq<Text> := i, [];
    assert whole == AfterKeys(done, whole) by {
      if whole.Some? {
        assert [] + whole.value == whole.value;
      }
    }
    while true
      invariant j <= |s| && whole == AfterKeys(done, ParseItems(s[j..], |done|))
      decreases |s| - j
    {
      ItemsStep(done, s[j..], |done|);
      if |done| >= ARRAY_LIMIT {
        return None;
      }
      var ok, k, next := ReadItem(s, j);
      if !ok || next == |s| {
        return None;
      }
      done := done + [k];
      if s[next] == CLOSE {
        return Some(done);
      }
      if s[next] != COMMA {
        return None;
      }
      assert s[next..][1..] == s[next + 1..];
      j := SkipSpaces(s, next + 1);
    }
  }

  /** The server's reading of a purge request's body, which it takes for a C string. */
  method ReadKeys(body: Text) returns (keys: Option<seq<Text>>)
    ensures keys == ParseKeys(body)
  {
    var text := CutAtNul(body);
    keys := ReadText(text);
  }

  method ReadText(body: Text) returns (keys: Option<seq<Text>>)
    ensures keys == ParseText(body)
  {
    hide From, ParseItems, Skip;
    assert body[0..] == body;
    var field := Find(body, 0, LABEL);
    if field == None {
      return None;
    }
    var colon := Find(body, field.value, [COLON]);
    if colon == None {
      return None;
    }
    assert [COLON] <= body[colon.value..];
    assert body[colon.value..][1..] == body[colon.value + 1..];
    var i := SkipSpaces(body, colon.value + 1);
    if i == |body| || body[i] != OPEN {
      return None;
    }
    assert body[i..][1..] == body[i + 1..];
    i := SkipSpaces(body, i + 1);
    if i < |body| && body[i] == CLOSE {
      return Some([]);
    }
    keys := ReadItems(body, i);
  }
}
