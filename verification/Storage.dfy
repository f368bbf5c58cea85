/** Reading and writing the state files against the live store and registry, step by step. */
module Storage {
  import opened Bytes
  import opened CacheTable
  import opened Recovery
  import opened Codec
  import opened Decoding
  import opened HashStore
  import opened Registry
  import Clients
  import Crypto
  import Files
  import Packet

  // ---------------------------------------------------------------- the cursor

  method ConsumeU32(s: seq<byte>, offset: nat) returns (ok: bool, value: nat, next: nat)
    requires offset <= |s|
    ensures next <= |s|
    ensures TakeU32(s[offset..]) == if ok then Got(value, s[next..]) else Refused
  {
    if |s| - offset < 4 {
      return false, 0, offset;
    }
    value := FourBytes(s[offset], s[offset + 1], s[offset + 2], s[offset + 3]);
    assert s[offset..][..4] == [s[offset], s[offset + 1], s[offset + 2], s[offset + 3]];
    return true, value, offset + 4;
  }

  function FourBytes(a: byte, b: byte, c: byte, d: byte): (n: nat)
    ensures n == FromBigEndian([a, b, c, d])
  {
    assert [a, b, c, d][..3] == [a, b, c] && [a, b, c][..2] == [a, b] && [a, b][..1] == [a] && [a][..0] == [];
    assert FromBigEndian([a]) == a;
    assert FromBigEndian([a, b]) == a * 256 + b;
    assert FromBigEndian([a, b, c]) == (a * 256 + b) * 256 + c;
    a * 0x100_0000 + b * 0x1_0000 + c * 0x100 + d
  }

  method ConsumeU64(s: seq<byte>, offset: nat) returns (ok: bool, value: nat, next: nat)
    requires offset <= |s|
    ensures next <= |s|
    ensures TakeU64(s[offset..]) == if ok then Got(value, s[next..]) else Refused
  {
    if |s| - offset < 8 {
      return false, 0, offset;
    }
    value := 0;
    for i := 0 to 8
      invariant value == FromBigEndian(s[offset..offset + i])
    {
      assert s[offset..offset + i + 1][..i] == s[offset..offset + i];
      value := value * 256 + s[offset + i];
    }
    assert s[offset..][..8] == s[offset..offset + 8];
    return true, value, offset + 8;
  }

  method ConsumeBytes(s: seq<byte>, offset: nat, n: nat) returns (ok: bool, value: seq<byte>, next: nat)
    requires offset <= |s|
    ensures next <= |s|
    ensures TakeBytes(s[offset..], n) == if ok then Got(value, s[next..]) else Refused
  {
    if |s| - offset < n {
      return false, [], offset;
    }
    assert s[offset..][..n] == s[offset..offset + n];
    return true, s[offset..offset + n], offset + n;
  }

  method ConsumeEntryHead(s: seq<byte>, offset: nat) returns (ok: bool, head: (nat, nat, int), next: nat)
    requires offset <= |s|
    ensures next <= |s|
    ensures ParseEntryHead(s[offset..]) == if ok then Got(head, s[next..]) else Refused
  {
    head, next := (0, 0, 0), offset;
    var keyLength, valueLength, expires;
    ok, keyLength, next := ConsumeU32(s, next);
    if !ok { return; }
    ok, valueLength, next := ConsumeU32(s, next);
    if !ok { return; }
    ok, expires, next := ConsumeU64(s, next);
    if !ok { return; }
    head := (keyLength, valueLength, Signed64(expires));
  }

  method ConsumeEntry(s: seq<byte>, offset: nat) returns (ok: bool, entry: (Key, Entry), next: nat)
    requires offset <= |s|
    ensures next <= |s|
    ensures ParseEntry(s[offset..]) == if ok then Got(entry, s[next..]) else Refused
  {
    entry := ([], Entry([], 0));
    var head, key, value;
    ok, head, next := ConsumeEntryHead(s, offset);
    if !ok { return; }
    ok, key, next := ConsumeBytes(s, next, head.0);
    if !ok { return; }
    ok, value, next := ConsumeBytes(s, next, head.1);
    if !ok { return; }
    entry := (key, Entry(value, head.2));
  }

  method ConsumeClientHead(s: seq<byte>, offset: nat, version: nat) returns (ok: bool, head: (nat, nat, nat), next: nat)
    requires offset <= |s|
    ensures next <= |s|
    ensures ParseClientHead(s[offset..], version) == if ok then Got(head, s[next..]) else Refused
  {
    head := (0, 0, 0);
    var idLength, role;
    var active := 1;
    ok, idLength, next := ConsumeU32(s, offset);
    if !ok { return; }
    ok, role, next := ConsumeU32(s, next);
    if !ok { return; }
    if version >= 2 {
      ok, active, next := ConsumeU32(s, next);
      if !ok { return; }
    }
    head := (idLength, role, active);
  }

  method ConsumeClient(s: seq<byte>, offset: nat, version: nat) returns (ok: bool, client: Clients.Client, next: nat)
    requires offset <= |s|
    ensures next <= |s|
    ensures ParseClient(s[offset..], version) == if ok then Got(client, s[next..]) else Refused
  {
    client := Clients.Client([], 0, false, []);
    var head, hash, id;
    ok, head, next := ConsumeClientHead(s, offset, version);
    if !ok { return; }
    ok, hash, next := ConsumeBytes(s, next, Clients.HASH_SIZE);
    if !ok { return; }
    if head.0 == 0 || head.0 >= Clients.ID_CAP {
      return false, client, next;
    }
    ok, id, next := ConsumeBytes(s, next, head.0);
    if !ok { return; }
    id := CutAtNul(id);
    client := Clients.Client(id, head.1, head.2 != 0, hash);
  }

  // ---------------------------------------------------------------- state payloads

  method RestoreEntry(store: Store, entry: (Key, Entry), now: int) returns (ok: bool)
    requires store.Valid()
    modifies store, store.buckets, store.nodes
    ensures store.Valid() && old(store.nodes) <= store.nodes && fresh(store.nodes - old(store.nodes))
    ensures RestoreStep(store.limits, now)(old(store.Table()), entry) == if ok then Some(store.Table()) else None
    ensures !ok ==> store.Table() == old(store.Table())
  {
    ok := true;
    if entry.1.expires > now {
      var status := store.Restore(entry.0, entry.1.value, entry.1.expires);
      ok := status == Status.Ok;
    }
  }

  method RestoreNext(store: Store, s: seq<byte>, offset: nat, now: int) returns (ok: bool, next: nat)
    requires store.Valid() && offset <= |s|
    modifies store, store.buckets, store.nodes
    ensures store.Valid() && old(store.nodes) <= store.nodes && fresh(store.nodes - old(store.nodes))
    ensures next <= |s|
    ensures OneThen(ParseEntry, RestoreStep(store.limits, now), old(store.Table()), s[offset..])
         == if ok then Some((store.Table(), s[next..])) else None
  {
    var entry;
    ok, entry, next := ConsumeEntry(s, offset);
    if ok {
      ok := RestoreEntry(store, entry, now);
    }
  }

  method RestoreEntries(store: Store, s: seq<byte>, offset: nat, n: nat, now: int) returns (ok: bool, next: nat)
    requires store.Valid() && offset <= |s|
    modifies store, store.buckets, store.nodes
    ensures store.Valid() && old(store.nodes) <= store.nodes && fresh(store.nodes - old(store.nodes))
    ensures next <= |s|
    ensures EntriesThen(store.limits, old(store.Table()), s[offset..], n, now)
         == if ok then Some((store.Table(), s[next..])) else None
  {
    hide OneThen, store.Valid;
    ghost var step := RestoreStep(store.limits, now);
    ghost var whole := ManyThen(ParseEntry, step, store.Table(), s[offset..], n);
    ok, next := true, offset;
    for i := 0 to n
      invariant store.Valid() && old(store.nodes) <= store.nodes && fresh(store.nodes - old(store.nodes))
      invariant next <= |s|
      invariant Ahead(whole, ParseEntry, step, store.Table(), s[next..], n - i)
    {
      AheadStep(whole, ParseEntry, step, store.Table(), s[next..], n - i);
      ok, next := RestoreNext(store, s, next, now);
      if !ok { return; }
    }
    ok := true;
  }

  method ImportNext(registry: Registry, s: seq<byte>, offset: nat, version: nat) returns (ok: bool, next: nat)
    requires registry.Valid() && offset <= |s|
    modifies registry, registry.records
    ensures registry.Valid() && (registry.records == old(registry.records) || fresh(registry.records))
    ensures next <= |s|
    ensures OneThen(ClientParser(version), ImportStep(), old(registry.Records()), s[offset..])
         == if ok then Some((registry.Records(), s[next..])) else None
  {
    var client;
    ok, client, next := ConsumeClient(s, offset, version);
    if ok {
      var status := registry.Import(client.id, client.role, client.hash, client.active);
      ok := status == Clients.Ok;
    }
  }

  method ImportClients(registry: Registry, s: seq<byte>, offset: nat, version: nat, n: nat)
        returns (ok: bool, next: nat)
    requires registry.Valid() && offset <= |s|
    modifies registry, registry.records
    ensures registry.Valid() && (registry.records == old(registry.records) || fresh(registry.records))
    ensures next <= |s|
    ensures ClientsThen(old(registry.Records()), s[offset..], version, n)
         == if ok then Some((registry.Records(), s[next..])) else None
  {
    hide OneThen;
    ghost var parse := ClientParser(version);
    ghost var whole := ManyThen(parse, ImportStep(), registry.Records(), s[offset..], n);
    ok, next := true, offset;
    for i := 0 to n
      invariant registry.Valid() && (registry.records == old(registry.records) || fresh(registry.records))
      invariant next <= |s|
      invariant Ahead(whole, parse, ImportStep(), registry.Records(), s[next..], n - i)
    {
      AheadStep(whole, parse, ImportStep(), registry.Records(), s[next..], n - i);
      ok, next := ImportNext(registry, s, next, version);
      if !ok { return; }
    }
    ok := true;
  }

  method ConsumeImageHead(s: seq<byte>, offset: nat) returns (ok: bool, head: (nat, nat), next: nat)
    requires offset <= |s|
    ensures next <= |s|
    ensures ParseImageHead(s[offset..]) == if ok then Got(head, s[next..]) else Refused
  {
    head := (0, 0);
    var version, checkpointedAt, entryCount;
    ok, version, next := ConsumeU32(s, offset);
    if !ok { return; }
    ok, checkpointedAt, next := ConsumeU64(s, next);
    if !ok { return; }
    if version == 0 || version > STATE_VERSION {
      return false, head, next;
    }
    ok, entryCount, next := ConsumeU32(s, next);
    if !ok { return; }
    head := (version, entryCount);
  }

  ghost function Contents(store: Store, registry: Registry): Live
    requires store.Valid() && registry.Valid()
    reads store, store.buckets, store.nodes, registry, registry.records
  {
    Live(store.Table(), registry.Records())
  }

  method ImportClientList(registry: Registry, s: seq<byte>, offset: nat, version: nat) returns (ok: bool, next: nat)
    requires registry.Valid() && offset <= |s|
    modifies registry, registry.records
    ensures registry.Valid() && (registry.records == old(registry.records) || fresh(registry.records))
    ensures next <= |s|
    ensures ClientListThen(old(registry.Records()), s[offset..], version)
         == if ok then Some((registry.Records(), s[next..])) else None
  {
    var clientCount;
    ok, clientCount, next := ConsumeU32(s, offset);
    if ok {
      ok, next := ImportClients(registry, s, next, version, clientCount);
    }
  }

  /** Decode a state payload into the store and the registry; it must be used up exactly. */
  method Deserialize(store: Store, registry: Registry, s: seq<byte>, now: int) returns (ok: bool)
    requires store.Valid() && registry.Valid()
    modifies store, store.buckets, store.nodes, registry, registry.records
    ensures store.Valid() && old(store.nodes) <= store.nodes && fresh(store.nodes - old(store.nodes))
    ensures registry.Valid() && (registry.records == old(registry.records) || fresh(registry.records))
    ensures DecodeState(store.limits, old(Contents(store, registry)), s, now)
         == if ok then Some(Contents(store, registry)) else None
  {
    hide EntriesThen, ClientListThen, ParseImageHead;
    var head, next;
    assert s[0..] == s;
    ok, head, next := ConsumeImageHead(s, 0);
    if !ok { return; }
    ok, next := RestoreEntries(store, s, next, head.1, now);
    if !ok { return; }
    ok, next := ImportClientList(registry, s, next, head.0);
    if !ok { return; }
    ok := next == |s|;
  }

  // ---------------------------------------------------------------- packets

  /** What reading a packet from a stream comes back with. */
  datatype Reading = EndOfFile | Broken | Read(payload: seq<byte>)

  /** Files shorter than this keep every authenticated message within the hash's 64-bit bit counter. */
  const FILE_LIMIT: nat := Crypto.MESSAGE_LIMIT - Packet.HEADER_SIZE

  /** Encrypt or decrypt a copy of the bytes. */
  method Combine(key: seq<byte>, nonce: seq<byte>, text: seq<byte>, ghost mac: Packet.Mac) returns (result: seq<byte>)
    requires |key| < Crypto.MESSAGE_LIMIT && |nonce| == Packet.NONCE_SIZE && mac == Crypto.HmacWith(key)
    ensures result == Packet.XorStream(mac, nonce, text)
  {
    var bytes := new byte[|text|](i requires 0 <= i < |text| => text[i]);
    assert bytes[..] == text;
    Crypto.StreamXor(key, nonce, bytes);
    result := bytes[..];
  }

  method ComputeTag(key: seq<byte>, m: seq<byte>, ghost mac: Packet.Mac) returns (tag: seq<byte>)
    requires |key| < Crypto.MESSAGE_LIMIT && |m| + Packet.HEADER_SIZE < Crypto.MESSAGE_LIMIT
    requires mac == Crypto.HmacWith(key)
    ensures tag == Packet.Tag(mac, m)
  {
    tag := Crypto.HmacSha256(key, m);
    Crypto.TagIsHmac(key, m);
  }

  /** Encrypt and authenticate one payload. */
  method BuildPacket(key: seq<byte>, max: nat, magic: seq<byte>, nonce: seq<byte>, payload: seq<byte>,
        ghost mac: Packet.Mac)
      returns (packet: Option<seq<byte>>)
    requires |key| < Crypto.MESSAGE_LIMIT && mac == Crypto.HmacWith(key)
    requires |magic| == 8 && |nonce| == Packet.NONCE_SIZE && |payload| < FILE_LIMIT - Packet.HEADER_SIZE
    ensures packet == Packet.Build(mac, max, magic, nonce, payload)
  {
    if |payload| > max {
      return None;
    }
    var ciphertext := Combine(key, nonce, payload, mac);
    var header := Packet.Header(magic, nonce, |payload|);
    var tag := ComputeTag(key, header + ciphertext, mac);
    packet := Some(header + tag + ciphertext);
  }

  /** Read, authenticate and decrypt the packet that starts at `offset`. */
  method ReadPacket(key: seq<byte>, max: nat, magic: seq<byte>, file: seq<byte>, offset: nat, ghost mac: Packet.Mac)
      returns (r: Reading, next: nat)
    requires |key| < Crypto.MESSAGE_LIMIT && mac == Crypto.HmacWith(key)
    requires |magic| == 8 && offset <= |file| < FILE_LIMIT
    ensures next <= |file|
    ensures Packet.Open(mac, max, magic, file[offset..]) == match r
                                                            case EndOfFile => Packet.Eof
                                                            case Broken => Packet.Bad
                                                            case Read(payload) => Packet.Packet(payload, file[next..])
    ensures r.Read? ==> next > offset
  {
    hide Packet.XorStream, Packet.Tag, FromBigEndian, Crypto.HmacWith;
    r, next := Broken, offset;
    if offset == |file| {
      return EndOfFile, offset;
    }
    if |file| - offset < Packet.HEADER_SIZE {
      return;
    }
    ghost var bytes := file[offset..];
    var header := file[offset..offset + Packet.HEADER_SIZE];
    HeaderParts(bytes, header);
    if header[..8] != magic || header[11] != 1 {
      return;
    }
    var length := FourBytes(header[12], header[13], header[14], header[15]);
    if length > max || |file| - offset - Packet.HEADER_SIZE < length {
      return;
    }
    var ciphertext := file[offset + Packet.HEADER_SIZE..offset + Packet.HEADER_SIZE + length];
    assert ciphertext == bytes[Packet.HEADER_SIZE..Packet.HEADER_SIZE + length];
    var tag := ComputeTag(key, header[..Packet.TAG_OFFSET] + ciphertext, mac);
    if tag != header[Packet.TAG_OFFSET..] {
      return;
    }
    var payload := Combine(key, header[16..Packet.TAG_OFFSET], ciphertext, mac);
    return Read(payload), offset + Packet.HEADER_SIZE + length;
  }

  lemma HeaderParts(bytes: seq<byte>, header: seq<byte>)
    requires |bytes| >= |header| == Packet.HEADER_SIZE && header == bytes[..Packet.HEADER_SIZE]
    ensures header[..8] == bytes[..8] && header[11] == bytes[11]
    ensures [header[12], header[13], header[14], header[15]] == bytes[12..16]
    ensures header[16..Packet.TAG_OFFSET] == bytes[16..Packet.TAG_OFFSET]
    ensures header[..Packet.TAG_OFFSET] == bytes[..Packet.TAG_OFFSET]
    ensures header[Packet.TAG_OFFSET..] == bytes[Packet.TAG_OFFSET..Packet.HEADER_SIZE]
  {
  }

  // ---------------------------------------------------------------- the journal

  method ConsumeRecordHead(s: seq<byte>) returns (ok: bool, head: (nat, nat), next: nat)
    ensures next <= |s|
    ensures ParseRecordHead(s) == if ok then Got(head, s[next..]) else Refused
  {
    head := (0, 0);
    assert s[0..] == s;
    var version, operation, recordedAt;
    ok, version, next := ConsumeU32(s, 0);
    if !ok { return; }
    ok, operation, next := ConsumeU32(s, next);
    if !ok { return; }
    ok, recordedAt, next := ConsumeU64(s, next);
    if !ok { return; }
    if version == 0 || version > JOURNAL_VERSION {
      return false, head, next;
    }
    head := (version, operation);
  }

  /** The bytes are the body of one record and nothing more. */
  ghost predicate WholeBody(s: seq<byte>, version: nat, operation: nat) {
    ParseBody(s, version, operation).Got? && |ParseBody(s, version, operation).rest| == 0
  }

  method ApplySet(store: Store, ghost clients: seq<Clients.Client>, s: seq<byte>, offset: nat, version: nat, now: int)
      returns (ok: bool)
    requires store.Valid() && offset <= |s|
    modifies store, store.buckets, store.nodes
    ensures store.Valid() && old(store.nodes) <= store.nodes && fresh(store.nodes - old(store.nodes))
    ensures BodyThen(store.limits, Live(old(store.Table()), clients), s[offset..], version, OP_SET, now)
         == if ok then Some(Live(store.Table(), clients)) else None
    ensures !ok && WholeBody(s[offset..], version, OP_SET) ==> store.Table() == old(store.Table())
  {
    var entry, next;
    ok, entry, next := ConsumeEntry(s, offset);
    if !ok { return; }
    ok := RestoreEntry(store, entry, now);
    if !ok { return; }
    ok := next == |s|;
  }

  method ApplyDelete(store: Store, ghost clients: seq<Clients.Client>, s: seq<byte>, offset: nat, version: nat,
                     now: int)
      returns (ok: bool)
    requires store.Valid() && offset <= |s|
    modifies store, store.buckets, store.nodes
    ensures store.Valid() && old(store.nodes) <= store.nodes && fresh(store.nodes - old(store.nodes))
    ensures BodyThen(store.limits, Live(old(store.Table()), clients), s[offset..], version, OP_DELETE, now)
         == if ok then Some(Live(store.Table(), clients)) else None
    ensures WholeBody(s[offset..], version, OP_DELETE) ==> ok
  {
    var length, key, next;
    ok, length, next := ConsumeU32(s, offset);
    if !ok { return; }
    ok, key, next := ConsumeBytes(s, next, length);
    if !ok { return; }
    var ignored := store.Delete(key);
    ok := next == |s|;
  }

  method ApplyUpsert(registry: Registry, ghost l: Limits, ghost table: Table, s: seq<byte>, offset: nat, version: nat,
                     now: int)
      returns (ok: bool)
    requires registry.Valid() && offset <= |s|
    modifies registry, registry.records
    ensures registry.Valid() && (registry.records == old(registry.records) || fresh(registry.records))
    ensures BodyThen(l, Live(table, old(registry.Records())), s[offset..], version, OP_CLIENT_UPSERT, now)
         == if ok then Some(Live(table, registry.Records())) else None
    ensures !ok && WholeBody(s[offset..], version, OP_CLIENT_UPSERT) ==> registry.Records() == old(registry.Records())
  {
    var client, next;
    ok, client, next := ConsumeClient(s, offset, version);
    if !ok { return; }
    var status := registry.Import(client.id, client.role, client.hash, client.active);
    ok := status == Clients.Ok && next == |s|;
  }

  /** Replay one decrypted journal payload; a record that is refused changes nothing. */
  method ApplyJournal(store: Store, registry: Registry, s: seq<byte>, now: int) returns (ok: bool)
    requires store.Valid() && registry.Valid()
    modifies store, store.buckets, store.nodes, registry, registry.records
    ensures store.Valid() && old(store.nodes) <= store.nodes && fresh(store.nodes - old(store.nodes))
    ensures registry.Valid() && (registry.records == old(registry.records) || fresh(registry.records))
    ensures ApplyPayload(store.limits, old(Contents(store, registry)), s, now)
         == if ok then Some(Contents(store, registry)) else None
    ensures !ok && ParseRecord(s).Some? ==> Contents(store, registry) == old(Contents(store, registry))
  {
    hide ParseBody, Apply;
    var head, next;
    ok, head, next := ConsumeRecordHead(s);
    if !ok { return; }
    ghost var x := Contents(store, registry);
    assert ApplyPayload(store.limits, x, s, now) == BodyThen(store.limits, x, s[next..], head.0, head.1, now);
    assert ParseRecord(s).Some? <==> WholeBody(s[next..], head.0, head.1);
    if head.1 == OP_SET {
      ok := ApplySet(store, x.clients, s, next, head.0, now);
    } else if head.1 == OP_DELETE {
      ok := ApplyDelete(store, x.clients, s, next, head.0, now);
    } else if head.1 == OP_CLIENT_UPSERT {
      ok := ApplyUpsert(registry, store.limits, x.table, s, next, head.0, now);
    } else {
      OtherBodies(store.limits, x, s[next..], head.0, head.1, now);
      if head.1 == OP_PURGE_ALL {
        store.Clear();
        ok := next == |s|;
      } else {
        ok := false;
      }
    }
  }

  lemma OtherBodies(l: Limits, x: Live, s: seq<byte>, version: nat, operation: nat, now: int)
    requires operation !in {OP_SET, OP_DELETE, OP_CLIENT_UPSERT}
    ensures BodyThen(l, x, s, version, operation, now)
         == if operation == OP_PURGE_ALL && |s| == 0 then Some(Live(map[], x.clients)) else None
    ensures WholeBody(s, version, operation) <==> operation == OP_PURGE_ALL && |s| == 0
  {
  }

  // ---------------------------------------------------------------- start-up and import

  /** Read the packet that fills a whole file; a missing or empty file is absent. */
  method ReadWholeFile(key: seq<byte>, max: nat, magic: seq<byte>, file: Option<seq<byte>>, ghost mac: Packet.Mac)
      returns (r: Files.FileResult)
    requires |key| < Crypto.MESSAGE_LIMIT && mac == Crypto.HmacWith(key)
    requires |magic| == 8 && (file.Some? ==> |file.value| < FILE_LIMIT)
    ensures r == Files.ReadPacketFile(mac, max, magic, file)
  {
    if file == None {
      return Files.Absent;
    }
    assert file.value[0..] == file.value;
    var reading, next := ReadPacket(key, max, magic, file.value, 0, mac);
    match reading
    case EndOfFile => r := Files.Absent;
    case Broken => r := Files.Unreadable;
    case Read(payload) => r := if next == |file.value| then Files.Payload(payload) else Files.Unreadable;
  }

  method ReplayJournal(store: Store, registry: Registry, key: seq<byte>, max: nat, file: seq<byte>, now: int,
      ghost mac: Packet.Mac)
      returns (ok: bool)
    requires store.Valid() && registry.Valid() && |file| < FILE_LIMIT
    requires |key| < Crypto.MESSAGE_LIMIT && mac == Crypto.HmacWith(key)
    modifies store, store.buckets, store.nodes, registry, registry.records
    ensures store.Valid() && old(store.nodes) <= store.nodes && fresh(store.nodes - old(store.nodes))
    ensures registry.Valid() && (registry.records == old(registry.records) || fresh(registry.records))
    ensures JournalThen(mac, max, store.limits, old(Contents(store, registry)), file, now)
         == if ok then Some(Contents(store, registry)) else None
    ensures HoldsRecords(mac, max, file) ==>
              Contents(store, registry) ==
              JournalSalvage(mac, max, store.limits, old(Contents(store, registry)), file, now)
  {
    hide Packet.Open, ApplyPayload, Crypto.HmacWith, HoldsRecords, ParseRecord, store.Valid, registry.Valid;
    ghost var whole := JournalThen(mac, max, store.limits, Contents(store, registry), file, now);
    ghost var left := JournalSalvage(mac, max, store.limits, Contents(store, registry), file, now);
    var next := 0;
    assert file[0..] == file;
    while true
      invariant store.Valid() && old(store.nodes) <= store.nodes && fresh(store.nodes - old(store.nodes))
      invariant registry.Valid() && (registry.records == old(registry.records) || fresh(registry.records))
      invariant next <= |file|
      invariant whole == JournalThen(mac, max, store.limits, Contents(store, registry), file[next..], now)
      invariant HoldsRecords(mac, max, file) ==>
                  && HoldsRecords(mac, max, file[next..])
                  && left == JournalSalvage(mac, max, store.limits, Contents(store, registry), file[next..], now)
      decreases |file| - next
    {
      var reading;
      ghost var rest := file[next..];
      reading, next := ReadPacket(key, max, Files.JOURNAL_MAGIC, file, next, mac);
      if reading == EndOfFile {
        return true;
      }
      if reading == Broken {
        return false;
      }
      if HoldsRecords(mac, max, file) {
        HoldsRecordsStep(mac, max, rest);
      }
      ok := ApplyJournal(store, registry, reading.payload, now);
      if !ok {
        return;
      }
    }
  }

  /**
   Start-up: empty the state, decode the checkpoint and replay the journal. When that fails, memory holds
   what had been loaded by then.
   */
  method LoadState(store: Store, registry: Registry, key: seq<byte>, max: nat, files: Files.Files, now: int,
      ghost mac: Packet.Mac)
      returns (ok: bool)
    requires store.Valid() && registry.Valid()
    requires |key| < Crypto.MESSAGE_LIMIT && mac == Crypto.HmacWith(key)
    requires files.checkpoint.Some? ==> |files.checkpoint.value| < FILE_LIMIT
    requires files.journal.Some? ==> |files.journal.value| < FILE_LIMIT
    modifies store, store.buckets, store.nodes, registry, registry.records
    ensures store.Valid() && old(store.nodes) <= store.nodes && fresh(store.nodes - old(store.nodes))
    ensures registry.Valid() && (registry.records == old(registry.records) || fresh(registry.records))
    ensures Files.LoadFiles(mac, max, store.limits, files, now) == if ok then Some(Contents(store, registry)) else None
    ensures PayloadsDecode(mac, max, store.limits, files, now) ==>
              Contents(store, registry) == LeftBehind(mac, max, store.limits, files, now)
  {
    hide DecodeState, JournalThen, JournalSalvage, HoldsRecords, Files.ReadPacketFile, Files.LoadFiles, Crypto.HmacWith,
         store.Valid, registry.Valid;
    LoadInOrderIsLoadFiles(mac, max, store.limits, files, now);
    store.Clear();
    registry.Clear();
    var first := ReadWholeFile(key, max, Files.STATE_MAGIC, files.checkpoint, mac);
    if first == Files.Unreadable {
      return false;
    }
    if first.Payload? {
      ok := Deserialize(store, registry, first.bytes, now);
      if !ok { return; }
    }
    if files.journal == None {
      return true;
    }
    ok := ReplayJournal(store, registry, key, max, files.journal.value, now, mac);
  }

  /** The state an import file describes at time `now`, if it is authentic, well formed and within the limits. */
  ghost function Imported(mac: Packet.Mac, max: nat, l: Limits, file: Option<seq<byte>>, now: int): Option<Live> {
    match Files.ReadPacketFile(mac, max, Files.EXPORT_MAGIC, file)
    case Absent => None
    case Unreadable => None
    case Payload(s) => ParseThenReplay(l, EMPTY, s, now)
  }

  /** Decode into a scratch store and registry made like the live ones. */
  method TryDecode(store: Store, registry: Registry, payload: seq<byte>, now: int) returns (ok: bool)
    requires store.Valid() && registry.Valid()
    ensures ok <==> DecodeState(store.limits, EMPTY, payload, now).Some?
  {
    hide DecodeState;
    BucketFacts(store.bucketOf, store.shape, []);
    var scratchStore := new Store(store.limits, store.buckets.Length, store.bucketOf);
    var scratchRegistry := new Registry(registry.bootstrapHash);
    ok := Deserialize(scratchStore, scratchRegistry, payload, now);
  }

  /**
   Import decodes into a scratch store and registry first. Either the whole file is taken over and
   replaces everything, or nothing changes.
   */
  method ImportState(store: Store, registry: Registry, key: seq<byte>, max: nat, file: Option<seq<byte>>, now: int,
      ghost mac: Packet.Mac)
      returns (ok: bool)
    requires store.Valid() && registry.Valid()
    requires |key| < Crypto.MESSAGE_LIMIT && mac == Crypto.HmacWith(key) && (file.Some? ==> |file.value| < FILE_LIMIT)
    modifies store, store.buckets, store.nodes, registry, registry.records
    ensures store.Valid() && old(store.nodes) <= store.nodes && fresh(store.nodes - old(store.nodes))
    ensures registry.Valid() && (registry.records == old(registry.records) || fresh(registry.records))
    ensures ok <==> Imported(mac, max, store.limits, file, now).Some?
    ensures Contents(store, registry)
         == if ok then Imported(mac, max, store.limits, file, now).value else old(Contents(store, registry))
  {
    hide DecodeState, ParseThenReplay, Files.ReadPacketFile, Crypto.HmacWith;
    ok := false;
    var first := ReadWholeFile(key, max, Files.EXPORT_MAGIC, file, mac);
    if !first.Payload? {
      return;
    }
    DecodeStateIsReplay(store.limits, EMPTY, first.bytes, now);
    ok := TryDecode(store, registry, first.bytes, now);
    if !ok {
      return;
    }
    store.Clear();
    registry.Clear();
    ok := Deserialize(store, registry, first.bytes, now);
  }
}
