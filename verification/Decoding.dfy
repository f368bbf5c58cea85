/**
 Decoding as the service does it: a cursor over the payload, each entry, client or journal record
 applied as soon as it has been read. The theorems say that this one-pass form succeeds exactly when
 parsing everything first and then replaying the parsed records does, with the same result.
 */
module Decoding {
  import opened Bytes
  import opened CacheTable
  import opened Recovery
  import opened Packet
  import opened Codec
  import opened Files
  import opened Machine
  import opened Interrupted
  import Clients

  /** Restore one decoded entry unless it has expired. */
  ghost function RestoreActive(l: Limits, t: Table, k: Key, e: Entry, now: int): Option<Table> {
    if e.expires <= now then Some(t)
    else
      var w := Restore(l, t, k, e.value, e.expires);
      if w.0 == Ok then Some(w.1) else None
  }

  /** Read one value and fold it into `x`. */
  ghost function OneThen<S, T>(parse: seq<byte> -> Parsed<T>, step: (S, T) -> Option<S>, x: S, s: seq<byte>)
      : Option<(S, seq<byte>)>
  {
    match parse(s)
    case Refused => None
    case Got(v, rest) =>
      match step(x, v)
      case None => None
      case Some(y) => Some((y, rest))
  }

  /** Read `n` values, folding each into `x` as soon as it has been read. */
  ghost function ManyThen<S, T>(parse: seq<byte> -> Parsed<T>, step: (S, T) -> Option<S>, x: S, s: seq<byte>, n: nat)
      : Option<(S, seq<byte>)>
    decreases n
  {
    if n == 0 then Some((x, s))
    else
      match OneThen(parse, step, x, s)
      case None => None
      case Some(y) => ManyThen(parse, step, y.0, y.1, n - 1)
  }

  /** Reading `n` more values from here gives `whole`. */
  ghost predicate Ahead<S, T>(whole: Option<(S, seq<byte>)>, parse: seq<byte> -> Parsed<T>, step: (S, T) -> Option<S>,
                              x: S, s: seq<byte>, n: nat) {
    whole == ManyThen(parse, step, x, s, n)
  }

  lemma AheadStep<S, T>(whole: Option<(S, seq<byte>)>, parse: seq<byte> -> Parsed<T>, step: (S, T) -> Option<S>,
                        x: S, s: seq<byte>, n: nat)
    requires n > 0 && Ahead(whole, parse, step, x, s, n)
    ensures match OneThen(parse, step, x, s)
            case None => whole == None
            case Some(y) => Ahead(whole, parse, step, y.0, y.1, n - 1)
  {
  }

  ghost function FoldAll<S, T>(step: (S, T) -> Option<S>, x: S, vs: seq<T>): Option<S>
    decreases |vs|
  {
    if |vs| == 0 then Some(x)
    else
      match step(x, vs[0])
      case None => None
      case Some(y) => FoldAll(step, y, vs[1..])
  }

  ghost function ParseThenFold<S, T>(parse: seq<byte> -> Parsed<T>, step: (S, T) -> Option<S>, x: S, s: seq<byte>,
        n: nat)
      : Option<(S, seq<byte>)>
  {
    match ParseMany(parse, s, n)
    case Refused => None
    case Got(vs, rest) =>
      match FoldAll(step, x, vs)
      case None => None
      case Some(y) => Some((y, rest))
  }

  /** Folding values in as they are read is reading them all and then folding. */
  lemma {:induction false} ManyThenIsParseThenFold<S, T>(
      parse: seq<byte> -> Parsed<T>, step: (S, T) -> Option<S>, x: S, s: seq<byte>, n: nat)
    ensures ManyThen(parse, step, x, s, n) == ParseThenFold(parse, step, x, s, n)
    decreases n
  {
    if n > 0 && parse(s).Got? {
      var v, rest := parse(s).value, parse(s).rest;
      var vs := ParseMany(parse, rest, n - 1);
      if vs.Got? {
        assert ([v] + vs.value)[1..] == vs.value;
      }
      if step(x, v).Some? {
        ManyThenIsParseThenFold(parse, step, step(x, v).value, rest, n - 1);
      }
    }
  }

  ghost function RestoreStep(l: Limits, now: int): (Table, (Key, Entry)) -> Option<Table> {
    (t: Table, e: (Key, Entry)) => RestoreActive(l, t, e.0, e.1, now)
  }

  ghost function EntriesThen(l: Limits, t: Table, s: seq<byte>, n: nat, now: int): Option<(Table, seq<byte>)> {
    ManyThen(ParseEntry, RestoreStep(l, now), t, s, n)
  }

  ghost function ImportClient(cs: seq<Clients.Client>, c: Clients.Client): Option<seq<Clients.Client>> {
    var w := Clients.Import(cs, c.id, c.role, c.hash, c.active);
    if w.0 == Clients.Ok then Some(w.1) else None
  }

  ghost function ImportStep(): (seq<Clients.Client>, Clients.Client) -> Option<seq<Clients.Client>> {
    (cs, c) => ImportClient(cs, c)
  }

  ghost function ClientsThen(cs: seq<Clients.Client>, s: seq<byte>, version: nat, n: nat)
      : Option<(seq<Clients.Client>, seq<byte>)>
  {
    ManyThen(ClientParser(version), ImportStep(), cs, s, n)
  }

  ghost function ClientListThen(cs: seq<Clients.Client>, s: seq<byte>, version: nat)
        : Option<(seq<Clients.Client>, seq<byte>)>
  {
    match TakeU32(s)
    case Refused => None
    case Got(n, rest) => ClientsThen(cs, rest, version, n)
  }

  /** Decode a state payload on top of `x`. */
  ghost function DecodeState(l: Limits, x: Live, s: seq<byte>, now: int): Option<Live> {
    match ParseImageHead(s)
    case Refused => None
    case Got(head, s) =>
      match EntriesThen(l, x.table, s, head.1, now)
      case None => None
      case Some(entries) =>
        match ClientListThen(x.clients, entries.1, head.0)
        case None => None
        case Some(clients) => if |clients.1| == 0 then Some(Live(entries.0, clients.0)) else None
  }

  ghost function ApplyPayload(l: Limits, x: Live, payload: seq<byte>, now: int): Option<Live> {
    match ParseRecord(payload)
    case None => None
    case Some(r) => Apply(l, x, r, now)
  }

  /** Apply the body of a record that must be used up exactly. */
  ghost function BodyThen(l: Limits, x: Live, s: seq<byte>, version: nat, operation: nat, now: int): Option<Live> {
    match ParseBody(s, version, operation)
    case Refused => None
    case Got(r, rest) => if |rest| == 0 then Apply(l, x, r, now) else None
  }

  /** Read and apply packets one after the other until the journal ends. */
  ghost function JournalThen(mac: Mac, max: nat, l: Limits, x: Live, bytes: seq<byte>, now: int): Option<Live>
    decreases |bytes|
  {
    match Open(mac, max, JOURNAL_MAGIC, bytes)
    case Eof => Some(x)
    case Bad => None
    case Packet(payload, rest) =>
      match ApplyPayload(l, x, payload, now)
      case None => None
      case Some(y) => JournalThen(mac, max, l, y, rest, now)
  }

  // ---------------------------------------------------------------- one pass is parse, then replay

  lemma ReplayOneThen(l: Limits, x: Live, r: Record, rs: seq<Record>, now: int)
    ensures Replay(l, x, [r] + rs, now) ==
            match Apply(l, x, r, now)
            case None => None
            case Some(y) => Replay(l, y, rs, now)
  {
    assert [r][..0] == [];
    assert Replay(l, x, [r], now) == Apply(l, x, r, now);
    ReplayConcat(l, x, [r], rs, now);
  }

  lemma {:induction false} RestoringIsReplay(l: Limits, x: Live, es: seq<(Key, Entry)>, now: int)
    ensures Replay(l, x, EntryRecords(es), now) ==
            match FoldAll(RestoreStep(l, now), x.table, es)
            case None => None
            case Some(t) => Some(x.(table := t))
    decreases |es|
  {
    if |es| > 0 {
      var r := Set(es[0].0, es[0].1.value, es[0].1.expires);
      assert EntryRecords(es) == [r] + EntryRecords(es[1..]);
      ReplayOneThen(l, x, r, EntryRecords(es[1..]), now);
      var u := RestoreStep(l, now)(x.table, es[0]);
      if u.Some? {
        RestoringIsReplay(l, x.(table := u.value), es[1..], now);
      }
    }
  }

  lemma {:induction false} ImportingIsReplay(l: Limits, x: Live, cs: seq<Clients.Client>, now: int)
    ensures Replay(l, x, ClientRecords(cs), now) ==
            match FoldAll(ImportStep(), x.clients, cs)
            case None => None
            case Some(ds) => Some(x.(clients := ds))
    decreases |cs|
  {
    if |cs| > 0 {
      assert ClientRecords(cs) == [Upsert(cs[0])] + ClientRecords(cs[1..]);
      ReplayOneThen(l, x, Upsert(cs[0]), ClientRecords(cs[1..]), now);
      var ds := ImportStep()(x.clients, cs[0]);
      if ds.Some? {
        ImportingIsReplay(l, x.(clients := ds.value), cs[1..], now);
      }
    }
  }

  ghost function ParseThenReplay(l: Limits, x: Live, s: seq<byte>, now: int): Option<Live> {
    match ParseImage(s)
    case None => None
    case Some(image) => Replay(l, x, ImageRecords(image), now)
  }

  /** Decoding a state payload in one pass is parsing it and then replaying its records. */
  lemma DecodeStateIsReplay(l: Limits, x: Live, s: seq<byte>, now: int)
    ensures DecodeState(l, x, s, now) == ParseThenReplay(l, x, s, now)
  {
    var head := ParseImageHead(s);
    if head.Got? {
      ManyThenIsParseThenFold(ParseEntry, RestoreStep(l, now), x.table, head.rest, head.value.1);
      var es := ParseEntries(head.rest, head.value.1);
      if es.Got? {
        RestoringIsReplay(l, x, es.value, now);
        var n := TakeU32(es.rest);
        if n.Got? {
          ManyThenIsParseThenFold(ClientParser(head.value.0), ImportStep(), x.clients, n.rest, n.value);
          var cs := ParseClients(n.rest, head.value.0, n.value);
          if cs.Got? {
            ReplayConcat(l, x, EntryRecords(es.value), ClientRecords(cs.value), now);
            var y := Replay(l, x, EntryRecords(es.value), now);
            if y.Some? {
              ImportingIsReplay(l, y.value, cs.value, now);
            }
          }
        }
      }
    }
  }

  ghost function ReadThenReplay(mac: Mac, max: nat, l: Limits, x: Live, bytes: seq<byte>, now: int): Option<Live> {
    match ReadJournal(mac, max, Some(bytes))
    case None => None
    case Some(journal) => Replay(l, x, journal, now)
  }

  /** Applying packets as they are read is reading the whole journal and then replaying it. */
  lemma {:induction false} JournalThenIsReplay(mac: Mac, max: nat, l: Limits, x: Live, bytes: seq<byte>, now: int)
    ensures JournalThen(mac, max, l, x, bytes, now) == ReadThenReplay(mac, max, l, x, bytes, now)
    decreases |bytes|
  {
    var p := Open(mac, max, JOURNAL_MAGIC, bytes);
    if p.Packet? {
      JournalStep(mac, max, l, x, bytes, now);
      var y := ApplyPayload(l, x, p.payload, now);
      if y.Some? {
        JournalThenIsReplay(mac, max, l, y.value, p.rest, now);
      }
    }
  }

  lemma JournalStep(mac: Mac, max: nat, l: Limits, x: Live, bytes: seq<byte>, now: int)
    requires Open(mac, max, JOURNAL_MAGIC, bytes).Packet?
    ensures var p := Open(mac, max, JOURNAL_MAGIC, bytes);
            ReadThenReplay(mac, max, l, x, bytes, now) ==
            match ApplyPayload(l, x, p.payload, now)
            case None => None
            case Some(y) => ReadThenReplay(mac, max, l, y, p.rest, now)
  {
    var p := Open(mac, max, JOURNAL_MAGIC, bytes);
    var all := ReadAll(mac, max, JOURNAL_MAGIC, p.rest);
    assert ReadAll(mac, max, JOURNAL_MAGIC, bytes) == ([p.payload] + all.0, all.1);
    if all.1 {
      ReplayParsed(l, x, p.payload, all.0, now);
    }
  }

  lemma ReplayParsed(l: Limits, x: Live, payload: seq<byte>, payloads: seq<seq<byte>>, now: int)
    ensures match ParseRecords([payload] + payloads)
            case None => ParseRecord(payload) == None || ParseRecords(payloads) == None
            case Some(log) =>
              && ParseRecord(payload).Some? && ParseRecords(payloads).Some?
              && Replay(l, x, log, now) == (match ApplyPayload(l, x, payload, now)
                                            case None => None
                                            case Some(y) => Replay(l, y, ParseRecords(payloads).value, now))
  {
    var all := [payload] + payloads;
    assert all[0] == payload && all[1..] == payloads;
    if ParseRecord(payload).Some? && ParseRecords(payloads).Some? {
      ReplayOneThen(l, x, ParseRecord(payload).value, ParseRecords(payloads).value, now);
    }
  }

  /** The whole of loading, in the order the service does it. */
  ghost function LoadInOrder(mac: Mac, max: nat, l: Limits, files: Files, now: int): Option<Live> {
    match ReadPacketFile(mac, max, STATE_MAGIC, files.checkpoint)
    case Unreadable => None
    case Absent => LoadJournal(mac, max, l, EMPTY, files.journal, now)
    case Payload(s) =>
      match DecodeState(l, EMPTY, s, now)
      case None => None
      case Some(x) => LoadJournal(mac, max, l, x, files.journal, now)
  }

  ghost function LoadJournal(mac: Mac, max: nat, l: Limits, x: Live, file: Option<seq<byte>>, now: int): Option<Live> {
    match file
    case None => Some(x)
    case Some(bytes) => JournalThen(mac, max, l, x, bytes, now)
  }

  lemma LoadJournalIsReplay(mac: Mac, max: nat, l: Limits, x: Live, file: Option<seq<byte>>, now: int)
    ensures LoadJournal(mac, max, l, x, file, now) ==
            match ReadJournal(mac, max, file)
            case None => None
            case Some(journal) => Replay(l, x, journal, now)
  {
    if file.Some? {
      JournalThenIsReplay(mac, max, l, x, file.value, now);
    }
  }

  /** Loading in one pass is reading both files and replaying their records as one log. */
  lemma LoadInOrderIsLoadFiles(mac: Mac, max: nat, l: Limits, files: Files, now: int)
    ensures LoadInOrder(mac, max, l, files, now) == LoadFiles(mac, max, l, files, now)
  {
    var base := ReadCheckpoint(mac, max, files.checkpoint);
    var journal := ReadJournal(mac, max, files.journal);
    var first := ReadPacketFile(mac, max, STATE_MAGIC, files.checkpoint);
    if first.Payload? {
      DecodeStateIsReplay(l, EMPTY, first.bytes, now);
    }
    if base.Some? {
      var x := Replay(l, EMPTY, base.value, now);
      if journal.Some? {
        ReplayConcat(l, EMPTY, base.value, journal.value, now);
      }
      if x.Some? {
        LoadJournalIsReplay(mac, max, l, x.value, files.journal, now);
      }
    }
  }

  // ---------------------------------------------------------------- what a failing start leaves in memory

  /** Read and apply packets until one does not read or is refused. */
  ghost function JournalSalvage(mac: Mac, max: nat, l: Limits, x: Live, bytes: seq<byte>, now: int): Live
    decreases |bytes|
  {
    match Open(mac, max, JOURNAL_MAGIC, bytes)
    case Eof => x
    case Bad => x
    case Packet(payload, rest) =>
      match ApplyPayload(l, x, payload, now)
      case None => x
      case Some(y) => JournalSalvage(mac, max, l, y, rest, now)
  }

  /** Every packet that can be read holds a record. */
  ghost predicate HoldsRecords(mac: Mac, max: nat, bytes: seq<byte>) {
    ParseRecords(ReadAll(mac, max, JOURNAL_MAGIC, bytes).0).Some?
  }

  lemma HoldsRecordsStep(mac: Mac, max: nat, bytes: seq<byte>)
    requires HoldsRecords(mac, max, bytes) && Open(mac, max, JOURNAL_MAGIC, bytes).Packet?
    ensures var p := Open(mac, max, JOURNAL_MAGIC, bytes);
            ParseRecord(p.payload).Some? && HoldsRecords(mac, max, p.rest)
  {
    var p := Open(mac, max, JOURNAL_MAGIC, bytes);
    var all := ReadAll(mac, max, JOURNAL_MAGIC, p.rest).0;
    assert ([p.payload] + all)[0] == p.payload && ([p.payload] + all)[1..] == all;
  }

  /** Applying packets as long as that goes is salvaging the records that can be read. */
  lemma {:induction false} JournalSalvageIsSalvage(mac: Mac, max: nat, l: Limits, x: Live, bytes: seq<byte>, now: int)
    requires HoldsRecords(mac, max, bytes)
    ensures JournalSalvage(mac, max, l, x, bytes, now) ==
            Salvage(l, x, ParseRecords(ReadAll(mac, max, JOURNAL_MAGIC, bytes).0).value, now)
    decreases |bytes|
  {
    hide Apply, ParseRecord;
    var p := Open(mac, max, JOURNAL_MAGIC, bytes);
    if p.Packet? {
      HoldsRecordsStep(mac, max, bytes);
      var all := ReadAll(mac, max, JOURNAL_MAGIC, p.rest).0;
      var r, rs := ParseRecord(p.payload).value, ParseRecords(all).value;
      assert ([p.payload] + all)[0] == p.payload && ([p.payload] + all)[1..] == all;
      assert ParseRecords([p.payload] + all) == Some([r] + rs) && ([r] + rs)[1..] == rs;
      if Apply(l, x, r, now).Some? {
        JournalSalvageIsSalvage(mac, max, l, Apply(l, x, r, now).value, p.rest, now);
      }
    }
  }

  /** What can be read decodes: the state payload, and every packet of the journal. */
  ghost predicate PayloadsDecode(mac: Mac, max: nat, l: Limits, files: Files, now: int) {
    var first := ReadPacketFile(mac, max, STATE_MAGIC, files.checkpoint);
    && (first.Payload? ==> DecodeState(l, EMPTY, first.bytes, now).Some?)
    && (files.journal.Some? ==> HoldsRecords(mac, max, files.journal.value))
  }

  /** What is in memory after loading such files, whether that succeeded or not. */
  ghost function LeftBehind(mac: Mac, max: nat, l: Limits, files: Files, now: int): Live
    requires PayloadsDecode(mac, max, l, files, now)
  {
    var first := ReadPacketFile(mac, max, STATE_MAGIC, files.checkpoint);
    if first.Unreadable? then EMPTY
    else
      var x := if first.Payload? then DecodeState(l, EMPTY, first.bytes, now).value else EMPTY;
      if files.journal.None? then x else JournalSalvage(mac, max, l, x, files.journal.value, now)
  }

  /** Files that hold a disk decode, and what loading leaves in memory is what the machine salvages. */
  lemma LeftBehindIsSalvage(mac: Mac, l: Limits, files: Files, d: Disk, tr: Trace, now: int)
    requires FieldsFit(l) && Stored(mac, l, files, d, tr) && now >= 0
    requires d.tear.Some? ==> !Straddles(mac, l, tr.tail)
    ensures PayloadsDecode(mac, MaxPacket(l), l, files, now)
    ensures LeftBehind(mac, MaxPacket(l), l, files, now) == Salvage(l, EMPTY, ReadableLog(d), now)
  {
    hide DecodeState, JournalSalvage, Replay, Salvage, ParseRecords, ReadAll, ReadPacketFile, JournalHolds,
         CheckpointHolds;
    var max := MaxPacket(l);
    var base := if d.checkpoint.Some? then ImageRecords(d.checkpoint.value) else [];
    CheckpointDecodes(mac, l, files, d, tr, now);
    ReplayNothing(l, now);
    SalvageNothing(l, EMPTY, now);
    ReadableLogIs(d);
    JournalHoldsRecords(mac, l, files, d, tr);
    if CheckpointReadable(d) {
      SalvageConcat(l, EMPTY, base, Whole(d), now);
      var x := Replay(l, EMPTY, base, now).value;
      if files.journal.Some? {
        JournalSalvageIsSalvage(mac, max, l, x, files.journal.value, now);
      } else {
        SalvageNothing(l, x, now);
      }
    }
  }

  lemma ReadableLogIs(d: Disk)
    ensures ReadableLog(d) == if !CheckpointReadable(d) then []
                              else (if d.checkpoint.Some? then ImageRecords(d.checkpoint.value) else []) + Whole(d)
  {
  }

  lemma SalvageNothing(l: Limits, x: Live, now: int)
    ensures Salvage(l, x, [], now) == x
  {
  }

  /** The checkpoint file reads exactly when its image is below 4 GiB, and then decodes at every time. */
  lemma CheckpointDecodes(mac: Mac, l: Limits, files: Files, d: Disk, tr: Trace, now: int)
    requires FieldsFit(l) && Stored(mac, l, files, d, tr) && now >= 0
    ensures var first := ReadPacketFile(mac, MaxPacket(l), STATE_MAGIC, files.checkpoint);
            var base := if d.checkpoint.Some? then ImageRecords(d.checkpoint.value) else [];
            && (first.Unreadable? <==> !CheckpointReadable(d)) && (first.Payload? ==> d.checkpoint.Some?)
            && (first.Absent? ==> d.checkpoint.None?)
            && (CheckpointReadable(d) ==> Replay(l, EMPTY, base, now).Some?)
            && (first.Payload? ==> DecodeState(l, EMPTY, first.bytes, now) == Replay(l, EMPTY, base, now))
  {
    hide DecodeState, Replay, ReadPacketFile, Seal, EncodeImage, JournalHolds;
    if d.checkpoint.Some? {
      var image := d.checkpoint.value;
      var payload := EncodeImage(image, tr.stamp.at);
      ImageFits(l, image, tr.stamp);
      PacketFileReadsBackExactlyBelow4GiB(mac, MaxPacket(l), STATE_MAGIC, tr.stamp.nonce, payload);
      WrittenImageLoads(l, image, now);
      if Loadable(image) {
        ImageReadsBack(image, tr.stamp.at);
        DecodeStateIsReplay(l, EMPTY, payload, now);
      }
    } else {
      NothingToRead(mac, MaxPacket(l));
      ReplayNothing(l, now);
    }
  }

  lemma NothingToRead(mac: Mac, max: nat)
    ensures ReadPacketFile(mac, max, STATE_MAGIC, None) == Absent
  {
  }

  lemma ReplayNothing(l: Limits, now: int)
    ensures Replay(l, EMPTY, [], now) == Some(EMPTY)
  {
  }

  /** The journal's packets before a tear are its records; behind one nothing reads. */
  lemma JournalHoldsRecords(mac: Mac, l: Limits, files: Files, d: Disk, tr: Trace)
    requires FieldsFit(l) && Stored(mac, l, files, d, tr)
    requires d.tear.Some? ==> !Straddles(mac, l, tr.tail)
    ensures if files.journal.None? then Whole(d) == []
            else ParseRecords(ReadAll(mac, MaxPacket(l), JOURNAL_MAGIC, files.journal.value).0) == Some(Whole(d))
  {
    if files.journal.Some? {
      var max, ps := MaxPacket(l), SealedRecords(Whole(d), tr.stamps);
      SealedRecordsFit(l, Whole(d), tr.stamps);
      PacketsThenRest(mac, max, JOURNAL_MAGIC, ps, tr.tail);
      assert ReadAll(mac, max, JOURNAL_MAGIC, tr.tail).0 == [];
      assert Payloads(ps) + [] == Payloads(ps);
      RecordsReadBack(l, Whole(d), tr.stamps);
    }
  }
}
