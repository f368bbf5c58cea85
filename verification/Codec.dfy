/** The big-endian payloads inside the packets: whole states and single journal records. */
module Codec {
  import opened Bytes
  import opened CacheTable
  import opened Recovery
  import Clients

  const STATE_VERSION: nat := 2
  const JOURNAL_VERSION: nat := 2

  const OP_SET: nat := 1
  const OP_DELETE: nat := 2
  const OP_CLIENT_UPSERT: nat := 3
  const OP_PURGE_ALL: nat := 4

  // ---------------------------------------------------------------- encoding

  function EncodeEntry(k: Key, e: Entry): seq<byte> {
    U32(|k|) + (U32(|e.value|) + (U64(e.expires) + (k + e.value)))
  }

  function EncodeClient(c: Clients.Client): seq<byte> {
    U32(|c.id|) + (U32(c.role) + (U32(if c.active then 1 else 0) + (c.hash + c.id)))
  }

  /** Values encoded one after the other. */
  function EncodeMany<T>(encode: T -> seq<byte>, vs: seq<T>): seq<byte> {
    if |vs| == 0 then [] else encode(vs[0]) + EncodeMany(encode, vs[1..])
  }

  function EncodeListed(e: (Key, Entry)): seq<byte> {
    EncodeEntry(e.0, e.1)
  }

  function EncodeEntries(entries: seq<(Key, Entry)>): seq<byte> {
    EncodeMany(EncodeListed, entries)
  }

  function EncodeClients(cs: seq<Clients.Client>): seq<byte> {
    EncodeMany(EncodeClient, cs)
  }

  function EncodeImage(image: Image, now: int): seq<byte> {
    U32(STATE_VERSION) + (U64(now) + (U32(|image.entries|) + (EncodeEntries(image.entries) +
    (U32(|image.clients|) + EncodeClients(image.clients)))))
  }

  function Operation(r: Record): nat {
    match r
    case Set(_, _, _) => OP_SET
    case Remove(_) => OP_DELETE
    case Upsert(_) => OP_CLIENT_UPSERT
    case PurgeAll => OP_PURGE_ALL
  }

  function EncodeBody(r: Record): seq<byte> {
    match r
    case Set(k, v, e) => EncodeEntry(k, Entry(v, e))
    case Remove(k) => U32(|k|) + k
    case Upsert(c) => EncodeClient(c)
    case PurgeAll => []
  }

  function EncodeRecord(r: Record, now: int): seq<byte> {
    U32(JOURNAL_VERSION) + (U32(Operation(r)) + (U64(now) + EncodeBody(r)))
  }

  // ---------------------------------------------------------------- decoding

  /** Nothing when the bytes run out or are refused, otherwise a value and the unread bytes. */
  datatype Parsed<+T> = Refused | Got(value: T, rest: seq<byte>)

  function TakeU32(s: seq<byte>): Parsed<nat> {
    if |s| < 4 then Refused else Got(FromBigEndian(s[..4]), s[4..])
  }

  function TakeU64(s: seq<byte>): Parsed<nat> {
    if |s| < 8 then Refused else Got(FromBigEndian(s[..8]), s[8..])
  }

  function TakeBytes(s: seq<byte>, n: nat): Parsed<seq<byte>> {
    if |s| < n then Refused else Got(s[..n], s[n..])
  }

  /** Key length, value length and expiry. */
  function ParseEntryHead(s: seq<byte>): Parsed<(nat, nat, int)> {
    match TakeU32(s)
    case Refused => Refused
    case Got(keyLength, s) =>
      match TakeU32(s)
      case Refused => Refused
      case Got(valueLength, s) =>
        match TakeU64(s)
        case Refused => Refused
        case Got(expires, s) => Got((keyLength, valueLength, Signed64(expires)), s)
  }

  function ParseEntry(s: seq<byte>): Parsed<(Key, Entry)> {
    match ParseEntryHead(s)
    case Refused => Refused
    case Got(head, s) =>
      match TakeBytes(s, head.0)
      case Refused => Refused
      case Got(key, s) =>
        match TakeBytes(s, head.1)
        case Refused => Refused
        case Got(value, s) => Got((key, Entry(value, head.2)), s)
  }

  /** Version 1 has no activity flag: its records are active. */
  function TakeActive(s: seq<byte>, version: nat): Parsed<nat> {
    if version >= 2 then TakeU32(s) else Got(1, s)
  }

  /** Id length, role and activity flag. */
  function ParseClientHead(s: seq<byte>, version: nat): Parsed<(nat, nat, nat)> {
    match TakeU32(s)
    case Refused => Refused
    case Got(idLength, s) =>
      match TakeU32(s)
      case Refused => Refused
      case Got(role, s) =>
        match TakeActive(s, version)
        case Refused => Refused
        case Got(active, s) => Got((idLength, role, active), s)
  }

  function ParseClient(s: seq<byte>, version: nat): Parsed<Clients.Client> {
    match ParseClientHead(s, version)
    case Refused => Refused
    case Got(head, s) =>
      match TakeBytes(s, Clients.HASH_SIZE)
      case Refused => Refused
      case Got(hash, s) =>
        if head.0 == 0 || head.0 >= Clients.ID_CAP then Refused
        else
          match TakeBytes(s, head.0)
          case Refused => Refused
          case Got(id, s) => Got(Clients.Client(UpToNul(id), head.1, head.2 != 0, hash), s)
  }

  /** Read `n` values one after the other. */
  function ParseMany<T>(parse: seq<byte> -> Parsed<T>, s: seq<byte>, n: nat): Parsed<seq<T>>
    decreases n
  {
    if n == 0 then Got([], s)
    else
      match parse(s)
      case Refused => Refused
      case Got(v, s) =>
        match ParseMany(parse, s, n - 1)
        case Refused => Refused
        case Got(vs, s) => Got([v] + vs, s)
  }

  function ParseEntries(s: seq<byte>, n: nat): Parsed<seq<(Key, Entry)>> {
    ParseMany(ParseEntry, s, n)
  }

  function ClientParser(version: nat): seq<byte> -> Parsed<Clients.Client> {
    s => ParseClient(s, version)
  }

  function ParseClients(s: seq<byte>, version: nat, n: nat): Parsed<seq<Clients.Client>> {
    ParseMany(ClientParser(version), s, n)
  }

  /** Version and number of entries; the time of the checkpoint is read and ignored. */
  function ParseImageHead(s: seq<byte>): Parsed<(nat, nat)> {
    match TakeU32(s)
    case Refused => Refused
    case Got(version, s) =>
      match TakeU64(s)
      case Refused => Refused
      case Got(_, s) =>
        if version == 0 || version > STATE_VERSION then Refused
        else
          match TakeU32(s)
          case Refused => Refused
          case Got(entryCount, s) => Got((version, entryCount), s)
  }

  function ParseClientList(s: seq<byte>, version: nat): Parsed<seq<Clients.Client>> {
    match TakeU32(s)
    case Refused => Refused
    case Got(clientCount, s) => ParseClients(s, version, clientCount)
  }

  function ParseImage(s: seq<byte>): Option<Image> {
    match ParseImageHead(s)
    case Refused => None
    case Got(head, s) =>
      match ParseEntries(s, head.1)
      case Refused => None
      case Got(entries, s) =>
        match ParseClientList(s, head.0)
        case Refused => None
        case Got(clients, s) => if |s| == 0 then Some(Image(entries, clients)) else None
  }

  function ParseBody(s: seq<byte>, version: nat, operation: nat): Parsed<Record> {
    if operation == OP_SET then
      match ParseEntry(s)
      case Refused => Refused
      case Got(e, s) => Got(Set(e.0, e.1.value, e.1.expires), s)
    else if operation == OP_DELETE then
      match TakeU32(s)
      case Refused => Refused
      case Got(length, s) =>
        (match TakeBytes(s, length)
         case Refused => Refused
         case Got(k, s) => Got(Remove(k), s))
    else if operation == OP_CLIENT_UPSERT then
      match ParseClient(s, version)
      case Refused => Refused
      case Got(c, s) => Got(Upsert(c), s)
    else if operation == OP_PURGE_ALL then Got(PurgeAll, s)
    else Refused
  }

  /** Version and operation; the time of the append is read and ignored. */
  function ParseRecordHead(s: seq<byte>): Parsed<(nat, nat)> {
    match TakeU32(s)
    case Refused => Refused
    case Got(version, s) =>
      match TakeU32(s)
      case Refused => Refused
      case Got(operation, s) =>
        match TakeU64(s)
        case Refused => Refused
        case Got(_, s) => if version == 0 || version > JOURNAL_VERSION then Refused else Got((version, operation), s)
  }

  function ParseRecord(s: seq<byte>): Option<Record> {
    match ParseRecordHead(s)
    case Refused => None
    case Got(head, s) =>
      match ParseBody(s, head.0, head.1)
      case Refused => None
      case Got(r, s) => if |s| == 0 then Some(r) else None
  }

  // ---------------------------------------------------------------- round trips

  lemma TakenU32(n: nat, rest: seq<byte>)
    requires n < TWO_32
    ensures TakeU32(U32(n) + rest) == Got(n, rest)
  {
    assert (U32(n) + rest)[..4] == U32(n) && (U32(n) + rest)[4..] == rest;
    U32RoundTrip(n);
  }

  lemma TakenU64(n: int, rest: seq<byte>)
    requires IsInt64(n)
    ensures TakeU64(U64(n) + rest).Got?
    ensures Signed64(TakeU64(U64(n) + rest).value) == n && TakeU64(U64(n) + rest).rest == rest
  {
    assert (U64(n) + rest)[..8] == U64(n) && (U64(n) + rest)[8..] == rest;
    U64RoundTrip(n);
  }

  lemma TakenBytes(s: seq<byte>, rest: seq<byte>)
    ensures TakeBytes(s + rest, |s|) == Got(s, rest)
  {
    assert (s + rest)[..|s|] == s && (s + rest)[|s|..] == rest;
  }

  lemma EntryHeadReadsBack(keyLength: nat, valueLength: nat, expires: int, rest: seq<byte>)
    requires keyLength < TWO_32 && valueLength < TWO_32 && IsInt64(expires)
    ensures ParseEntryHead(U32(keyLength) + (U32(valueLength) + (U64(expires) + rest))) ==
            Got((keyLength, valueLength, expires), rest)
  {
    TakenU32(keyLength, U32(valueLength) + (U64(expires) + rest));
    TakenU32(valueLength, U64(expires) + rest);
    TakenU64(expires, rest);
  }

  lemma EntryReadsBack(k: Key, e: Entry, rest: seq<byte>)
    requires |k| < TWO_32 && |e.value| < TWO_32 && IsInt64(e.expires)
    ensures ParseEntry(EncodeEntry(k, e) + rest) == Got((k, e), rest)
  {
    var d := e.value + rest;
    assert EncodeEntry(k, e) + rest == U32(|k|) + (U32(|e.value|) + (U64(e.expires) + (k + d)));
    EntryHeadReadsBack(|k|, |e.value|, e.expires, k + d);
    TakenBytes(k, d);
    TakenBytes(e.value, rest);
  }

  lemma ClientHeadReadsBack(idLength: nat, role: nat, flag: nat, rest: seq<byte>)
    requires idLength < TWO_32 && role < TWO_32 && flag < TWO_32
    ensures ParseClientHead(U32(idLength) + (U32(role) + (U32(flag) + rest)), 2) == Got((idLength, role, flag), rest)
  {
    TakenU32(idLength, U32(role) + (U32(flag) + rest));
    TakenU32(role, U32(flag) + rest);
    TakenU32(flag, rest);
  }

  lemma ClientReadsBack(c: Clients.Client, rest: seq<byte>)
    requires Clients.WellFormedClient(c)
    ensures ParseClient(EncodeClient(c) + rest, 2) == Got(c, rest)
  {
    var flag := if c.active then 1 else 0;
    var e := c.id + rest;
    assert EncodeClient(c) + rest == U32(|c.id|) + (U32(c.role) + (U32(flag) + (c.hash + e)));
    ClientHeadReadsBack(|c.id|, c.role, flag, c.hash + e);
    TakenBytes(c.hash, e);
    TakenBytes(c.id, rest);
    assert forall i :: 0 <= i < |c.id| ==> Clients.IsIdByte(c.id[i]);
    NoNulToCutAt(c.id);
  }

  predicate EntryEncodable(e: (Key, Entry)) {
    |e.0| < TWO_32 && |e.1.value| < TWO_32 && IsInt64(e.1.expires)
  }

  /** When each value reads back whatever follows it, so do any number of them. */
  lemma {:induction false} ManyReadBack<T>(parse: seq<byte> -> Parsed<T>, encode: T -> seq<byte>, vs: seq<T>,
        rest: seq<byte>)
    requires forall i, r :: 0 <= i < |vs| ==> parse(encode(vs[i]) + r) == Got(vs[i], r)
    ensures ParseMany(parse, EncodeMany(encode, vs) + rest, |vs|) == Got(vs, rest)
  {
    if |vs| == 0 {
      assert EncodeMany(encode, vs) + rest == rest;
    } else {
      var tail := EncodeMany(encode, vs[1..]);
      assert EncodeMany(encode, vs) + rest == encode(vs[0]) + (tail + rest);
      ManyReadBack(parse, encode, vs[1..], rest);
      assert vs == [vs[0]] + vs[1..];
    }
  }

  lemma EntriesReadBack(entries: seq<(Key, Entry)>, rest: seq<byte>)
    requires forall i :: 0 <= i < |entries| ==> EntryEncodable(entries[i])
    ensures ParseEntries(EncodeEntries(entries) + rest, |entries|) == Got(entries, rest)
  {
    forall i, r | 0 <= i < |entries|
      ensures ParseEntry(EncodeListed(entries[i]) + r) == Got(entries[i], r)
    {
      EntryReadsBack(entries[i].0, entries[i].1, r);
    }
    ManyReadBack(ParseEntry, EncodeListed, entries, rest);
  }

  lemma ClientsReadBack(cs: seq<Clients.Client>, rest: seq<byte>)
    requires forall i :: 0 <= i < |cs| ==> Clients.WellFormedClient(cs[i])
    ensures ParseClients(EncodeClients(cs) + rest, 2, |cs|) == Got(cs, rest)
  {
    forall i, r | 0 <= i < |cs|
      ensures ClientParser(2)(EncodeClient(cs[i]) + r) == Got(cs[i], r)
    {
      ClientReadsBack(cs[i], r);
    }
    ManyReadBack(ClientParser(2), EncodeClient, cs, rest);
  }

  predicate ImageEncodable(image: Image) {
    && |image.entries| < TWO_32 && |image.clients| < TWO_32
    && (forall i :: 0 <= i < |image.entries| ==> EntryEncodable(image.entries[i]))
    && (forall i :: 0 <= i < |image.clients| ==> Clients.WellFormedClient(image.clients[i]))
  }

  lemma ImageHeadReadsBack(entryCount: nat, now: int, rest: seq<byte>)
    requires entryCount < TWO_32 && IsInt64(now)
    ensures ParseImageHead(U32(STATE_VERSION) + (U64(now) + (U32(entryCount) + rest))) ==
            Got((STATE_VERSION, entryCount), rest)
  {
    TakenU32(STATE_VERSION, U64(now) + (U32(entryCount) + rest));
    TakenU64(now, U32(entryCount) + rest);
    TakenU32(entryCount, rest);
  }

  lemma ClientListReadsBack(cs: seq<Clients.Client>)
    requires |cs| < TWO_32 && forall i :: 0 <= i < |cs| ==> Clients.WellFormedClient(cs[i])
    ensures ParseClientList(U32(|cs|) + EncodeClients(cs), 2) == Got(cs, [])
  {
    var s := EncodeClients(cs);
    TakenU32(|cs|, s);
    ClientsReadBack(cs, []);
    assert s + [] == s;
  }

  /** A state payload decodes to exactly its image, consuming every byte. */
  lemma ImageReadsBack(image: Image, now: int)
    requires ImageEncodable(image) && IsInt64(now)
    ensures ParseImage(EncodeImage(image, now)) == Some(image)
  {
    var d := U32(|image.clients|) + EncodeClients(image.clients);
    ImageHeadReadsBack(|image.entries|, now, EncodeEntries(image.entries) + d);
    EntriesReadBack(image.entries, d);
    ClientListReadsBack(image.clients);
  }

  predicate RecordEncodable(r: Record) {
    match r
    case Set(k, v, e) => EntryEncodable((k, Entry(v, e)))
    case Remove(k) => |k| < TWO_32
    case Upsert(c) => Clients.WellFormedClient(c)
    case PurgeAll => true
  }

  lemma BodyReadsBack(r: Record)
    requires RecordEncodable(r)
    ensures ParseBody(EncodeBody(r), 2, Operation(r)) == Got(r, [])
  {
    var s := EncodeBody(r);
    assert s + [] == s;
    match r {
      case Set(k, v, e) => EntryReadsBack(k, Entry(v, e), []);
      case Remove(k) =>
        TakenU32(|k|, k);
        TakenBytes(k, []);
        assert k + [] == k;
      case Upsert(c) => ClientReadsBack(c, []);
      case PurgeAll =>
    }
  }

  lemma RecordHeadReadsBack(operation: nat, now: int, rest: seq<byte>)
    requires operation < TWO_32 && IsInt64(now)
    ensures ParseRecordHead(U32(JOURNAL_VERSION) + (U32(operation) + (U64(now) + rest))) ==
            Got((JOURNAL_VERSION, operation), rest)
  {
    TakenU32(JOURNAL_VERSION, U32(operation) + (U64(now) + rest));
    TakenU32(operation, U64(now) + rest);
    TakenU64(now, rest);
  }

  lemma RecordReadsBack(r: Record, now: int)
    requires RecordEncodable(r) && IsInt64(now)
    ensures ParseRecord(EncodeRecord(r, now)) == Some(r)
  {
    RecordHeadReadsBack(Operation(r), now, EncodeBody(r));
    BodyReadsBack(r);
  }

  // ---------------------------------------------------------------- sizes

  lemma {:induction false} EncodeManySnoc<T>(encode: T -> seq<byte>, vs: seq<T>, v: T)
    ensures EncodeMany(encode, vs + [v]) == EncodeMany(encode, vs) + encode(v)
  {
    if |vs| == 0 {
      assert vs + [v] == [v];
    } else {
      EncodeManySnoc(encode, vs[1..], v);
      assert (vs + [v])[1..] == vs[1..] + [v];
    }
  }

  lemma {:induction false} EntriesSize(entries: seq<(Key, Entry)>)
    ensures |EncodeEntries(entries)| == EntryBytes(entries) && 16 * |entries| <= EntryBytes(entries)
  {
    if |entries| > 0 {
      var front, e := entries[..|entries| - 1], entries[|entries| - 1];
      EntriesSize(front);
      EncodeManySnoc(EncodeListed, front, e);
      assert front + [e] == entries;
    }
  }

  lemma {:induction false} ClientsSize(cs: seq<Clients.Client>)
    ensures |EncodeClients(cs)| == ClientBytes(cs)
  {
    if |cs| > 0 {
      var front, c := cs[..|cs| - 1], cs[|cs| - 1];
      ClientsSize(front);
      EncodeManySnoc(EncodeClient, front, c);
      assert front + [c] == cs;
    }
  }

  /** The payload of an image is as long as its entries and clients say. */
  lemma EncodedImageSize(image: Image, now: int)
    ensures |EncodeImage(image, now)| == ImageSize(image) && 16 * |image.entries| <= ImageSize(image)
  {
    EntriesSize(image.entries);
    ClientsSize(image.clients);
  }
}
