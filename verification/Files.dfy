/**
 Loading at the level of bytes: the two files as the handlers write them, and the theorem that
 reading, authenticating, decrypting and decoding them is exactly the recovery of the decoded model.
 */
module Files {
  import opened Bytes
  import opened CacheTable
  import opened Recovery
  import opened Machine
  import opened Packet
  import opened Codec
  import opened Durability
  import Clients

  // "MPCSTAT1", "MPCJNL1" with its terminating NUL, and "MPCEXPT1".
  const STATE_MAGIC: seq<byte> := [77, 80, 67, 83, 84, 65, 84, 49]
  const JOURNAL_MAGIC: seq<byte> := [77, 80, 67, 74, 78, 76, 49, 0]
  const EXPORT_MAGIC: seq<byte> := [77, 80, 67, 69, 88, 80, 84, 49]

  datatype Files = Files(checkpoint: Option<seq<byte>>, journal: Option<seq<byte>>)

  // ---------------------------------------------------------------- reading

  /** One packet filling a whole file; a missing or empty file counts as absent. */
  datatype FileResult = Absent | Unreadable | Payload(bytes: seq<byte>)

  function ReadPacketFile(mac: Mac, max: nat, magic: seq<byte>, file: Option<seq<byte>>): FileResult
    requires |magic| == 8
  {
    match file
    case None => Absent
    case Some(bytes) =>
      match Open(mac, max, magic, bytes)
      case Eof => Absent
      case Bad => Unreadable
      case Packet(payload, rest) => if |rest| == 0 then Payload(payload) else Unreadable
  }

  function ReadCheckpoint(mac: Mac, max: nat, file: Option<seq<byte>>): Option<seq<Record>> {
    match ReadPacketFile(mac, max, STATE_MAGIC, file)
    case Absent => Some([])
    case Unreadable => None
    case Payload(bytes) =>
      match ParseImage(bytes)
      case None => None
      case Some(image) => Some(ImageRecords(image))
  }

  function ParseRecords(payloads: seq<seq<byte>>): Option<seq<Record>> {
    if |payloads| == 0 then Some([])
    else
      match ParseRecord(payloads[0])
      case None => None
      case Some(r) =>
        match ParseRecords(payloads[1..])
        case None => None
        case Some(rs) => Some([r] + rs)
  }

  function ReadJournal(mac: Mac, max: nat, file: Option<seq<byte>>): Option<seq<Record>> {
    match file
    case None => Some([])
    case Some(bytes) =>
      var r := ReadAll(mac, max, JOURNAL_MAGIC, bytes);
      if r.1 then ParseRecords(r.0) else None
  }

  ghost function LoadFiles(mac: Mac, max: nat, l: Limits, files: Files, t: int): Option<Live> {
    match ReadCheckpoint(mac, max, files.checkpoint)
    case None => None
    case Some(base) =>
      match ReadJournal(mac, max, files.journal)
      case None => None
      case Some(journal) => Replay(l, EMPTY, base + journal, t)
  }

  // ---------------------------------------------------------------- writing

  /** The random nonce and the wall-clock time that go into one packet. */
  datatype Stamp = Stamp(nonce: seq<byte>, at: int)

  predicate StampOk(s: Stamp) {
    |s.nonce| == NONCE_SIZE && IsInt64(s.at)
  }

  predicate StampsOk(ss: seq<Stamp>) {
    forall i :: 0 <= i < |ss| ==> StampOk(ss[i])
  }

  function SealedRecords(journal: seq<Record>, stamps: seq<Stamp>): (ps: seq<Sealed>)
    requires |journal| == |stamps|
    ensures |ps| == |journal|
  {
    seq(|journal|, i requires 0 <= i < |journal| => Sealed(stamps[i].nonce, EncodeRecord(journal[i], stamps[i].at)))
  }

  /** The packet bound the server configures itself with. */
  function MaxPacket(l: Limits): nat {
    l.memory + PACKET_OVERHEAD
  }

  /** Keys and values are no longer than their 32-bit length fields, as configuration guarantees. */
  predicate FieldsFit(l: Limits) {
    l.maxKey < TWO_32 && l.maxValue < TWO_32
  }

  /** Every record the handlers write fits a packet. */
  lemma RecordFits(l: Limits, r: Record, stamp: Stamp)
    requires JournalRecordOk(l, r) && StampOk(stamp)
    ensures RecordEncodable(r)
    ensures Fits(MaxPacket(l), Sealed(stamp.nonce, EncodeRecord(r, stamp.at)))
  {
  }

  lemma ImageFits(l: Limits, image: Image, stamp: Stamp)
    requires FieldsFit(l) && ImageOk(l, image) && StampOk(stamp)
    ensures |EncodeImage(image, stamp.at)| == ImageSize(image) <= MaxPacket(l)
    ensures Loadable(image) ==> ImageEncodable(image)
  {
    EncodedImageSize(image, stamp.at);
    ImagesFitThePacketBound(l, image);
    if Loadable(image) {
      assert forall i :: 0 <= i < |image.entries| ==> EntryEncodable(image.entries[i]);
    }
  }

  // ---------------------------------------------------------------- what is written is what is loaded

  /** A file of one packet reads back exactly when its payload is below 4 GiB; otherwise it is refused. */
  lemma PacketFileReadsBackExactlyBelow4GiB(mac: Mac, max: nat, magic: seq<byte>, nonce: seq<byte>, payload: seq<byte>)
    requires |magic| == 8 && |nonce| == NONCE_SIZE && |payload| <= max
    ensures ReadPacketFile(mac, max, magic, Some(Seal(mac, magic, nonce, payload)))
         == if |payload| < TWO_32 then Payload(payload) else Unreadable
  {
    var bytes := Seal(mac, magic, nonce, payload);
    assert bytes + [] == bytes;
    if |payload| < TWO_32 {
      SealedPacketOpens(mac, max, magic, nonce, payload, []);
    } else {
      SealLayout(mac, magic, nonce, payload, []);
      U32RoundTrip(|payload|);
      hide Seal, Tag, XorStream, FromBigEndian;
      var r := Open(mac, max, magic, bytes);
      assert r.Packet? ==> |r.rest| == |payload| - FromBigEndian(bytes[12..16]);
    }
  }

  /** A checkpoint file decodes to its records exactly when its image is below 4 GiB; otherwise it does not decode. */
  lemma CheckpointReadsBackExactlyBelow4GiB(mac: Mac, l: Limits, image: Image, stamp: Stamp)
    requires FieldsFit(l) && ImageOk(l, image) && StampOk(stamp)
    ensures ReadCheckpoint(mac, MaxPacket(l), Some(Seal(mac, STATE_MAGIC, stamp.nonce, EncodeImage(image, stamp.at))))
         == if Loadable(image) then Some(ImageRecords(image)) else None
  {
    hide EncodeImage, ReadPacketFile, ParseImage;
    ImageFits(l, image, stamp);
    PacketFileReadsBackExactlyBelow4GiB(mac, MaxPacket(l), STATE_MAGIC, stamp.nonce, EncodeImage(image, stamp.at));
    if Loadable(image) {
      ImageReadsBack(image, stamp.at);
    }
  }

  lemma {:induction false} ParseEach(payloads: seq<seq<byte>>, journal: seq<Record>)
    requires |payloads| == |journal| && forall i :: 0 <= i < |journal| ==> ParseRecord(payloads[i]) == Some(journal[i])
    ensures ParseRecords(payloads) == Some(journal)
  {
    hide ParseRecord;
    if |journal| > 0 {
      assert ParseRecord(payloads[0]) == Some(journal[0]);
      ParseEach(payloads[1..], journal[1..]);
      assert journal == [journal[0]] + journal[1..];
    }
  }

  lemma RecordsReadBack(l: Limits, journal: seq<Record>, stamps: seq<Stamp>)
    requires JournalOk(l, journal) && StampsOk(stamps) && |journal| == |stamps|
    ensures ParseRecords(Payloads(SealedRecords(journal, stamps))) == Some(journal)
  {
    var payloads := Payloads(SealedRecords(journal, stamps));
    forall i | 0 <= i < |journal|
      ensures ParseRecord(payloads[i]) == Some(journal[i])
    {
      RecordFits(l, journal[i], stamps[i]);
      RecordReadsBack(journal[i], stamps[i].at);
    }
    ParseEach(payloads, journal);
  }

  lemma SealedRecordsFit(l: Limits, journal: seq<Record>, stamps: seq<Stamp>)
    requires JournalOk(l, journal) && StampsOk(stamps) && |journal| == |stamps|
    ensures AllFit(MaxPacket(l), SealedRecords(journal, stamps))
  {
    forall i | 0 <= i < |journal|
      ensures Fits(MaxPacket(l), SealedRecords(journal, stamps)[i])
    {
      RecordFits(l, journal[i], stamps[i]);
    }
  }

  function JournalBytes(mac: Mac, l: Limits, journal: seq<Record>, stamps: seq<Stamp>): seq<byte>
    requires JournalOk(l, journal) && StampsOk(stamps) && |journal| == |stamps|
  {
    SealedRecordsFit(l, journal, stamps);
    Concat(mac, MaxPacket(l), JOURNAL_MAGIC, SealedRecords(journal, stamps))
  }

  lemma JournalReadsBack(mac: Mac, l: Limits, journal: seq<Record>, stamps: seq<Stamp>)
    requires JournalOk(l, journal) && StampsOk(stamps) && |journal| == |stamps|
    ensures ReadJournal(mac, MaxPacket(l), Some(JournalBytes(mac, l, journal, stamps))) == Some(journal)
  {
    SealedRecordsFit(l, journal, stamps);
    PacketsReadBack(mac, MaxPacket(l), JOURNAL_MAGIC, SealedRecords(journal, stamps));
    RecordsReadBack(l, journal, stamps);
  }

  // ---------------------------------------------------------------- the files hold a disk

  /** How the files came about: the nonces and times of the packets in use, and the bytes from a torn record on. */
  datatype Trace = Trace(stamp: Stamp, stamps: seq<Stamp>, tail: seq<byte>)

  /** The journal's records before the tear, if there is one. */
  function Whole(d: Disk): seq<Record> {
    if d.tear.Some? && d.tear.value <= |d.journal| then d.journal[..d.tear.value] else d.journal
  }

  /** The bytes begin with a packet that was cut. */
  ghost predicate Torn(mac: Mac, max: nat, tail: seq<byte>) {
    exists p: Sealed, n: nat ::
      Fits(max, p) && 0 < n < HEADER_SIZE + |p.payload| && Seal(mac, JOURNAL_MAGIC, p.nonce, p.payload)[..n] <= tail
  }

  ghost predicate JournalHolds(mac: Mac, l: Limits, file: Option<seq<byte>>, d: Disk, tr: Trace)
    requires DiskOk(l, d)
  {
    && StampsOk(tr.stamps) && |tr.stamps| == |Whole(d)|
    && (if d.tear.Some? then Torn(mac, MaxPacket(l), tr.tail) else tr.tail == [])
    && (file == Some(JournalBytes(mac, l, Whole(d), tr.stamps) + tr.tail)
        || (file == None && d.journal == [] && d.tear == None))
  }

  ghost predicate CheckpointHolds(mac: Mac, file: Option<seq<byte>>, d: Disk, tr: Trace) {
    && StampOk(tr.stamp)
    && file == (if d.checkpoint.None? then None
                else Some(Seal(mac, STATE_MAGIC, tr.stamp.nonce, EncodeImage(d.checkpoint.value, tr.stamp.at))))
  }

  /** The files hold this disk: sealed with some nonces at some times, an empty journal possibly missing. */
  ghost predicate Stored(mac: Mac, l: Limits, files: Files, d: Disk, tr: Trace) {
    DiskOk(l, d) && CheckpointHolds(mac, files.checkpoint, d, tr) && JournalHolds(mac, l, files.journal, d, tr)
  }

  /** The bytes from the tear on happen to read as a packet. */
  predicate Straddles(mac: Mac, l: Limits, tail: seq<byte>) {
    Open(mac, MaxPacket(l), JOURNAL_MAGIC, tail).Packet?
  }

  /** A torn journal does not read, unless the bytes across the tear happen to be a packet. */
  lemma TornJournalDoesNotRead(mac: Mac, l: Limits, d: Disk, tr: Trace)
    requires DiskOk(l, d) && d.tear.Some? && StampsOk(tr.stamps) && |tr.stamps| == |Whole(d)|
    requires Torn(mac, MaxPacket(l), tr.tail) && !Straddles(mac, l, tr.tail)
    ensures ReadJournal(mac, MaxPacket(l), Some(JournalBytes(mac, l, Whole(d), tr.stamps) + tr.tail)) == None
  {
    SealedRecordsFit(l, Whole(d), tr.stamps);
    PacketsThenRest(mac, MaxPacket(l), JOURNAL_MAGIC, SealedRecords(Whole(d), tr.stamps), tr.tail);
  }

  /**
   Loading the bytes is loading the decoded disk, whatever nonces and times were used: with a torn
   record or an image of 4 GiB and more that means failing, unless the bytes across the tear happen
   to be a packet.
   */
  lemma LoadingFilesIsLoadingTheDisk(mac: Mac, l: Limits, files: Files, d: Disk, tr: Trace, t: int)
    requires FieldsFit(l) && Stored(mac, l, files, d, tr)
    requires d.tear.Some? ==> !Straddles(mac, l, tr.tail)
    ensures LoadFiles(mac, MaxPacket(l), l, files, t) == Load(l, d, t)
  {
    hide ReadAll, Seal, EncodeImage, Replay, JournalBytes;
    if d.checkpoint.Some? {
      CheckpointReadsBackExactlyBelow4GiB(mac, l, d.checkpoint.value, tr.stamp);
    }
    if d.tear.Some? {
      TornJournalDoesNotRead(mac, l, d, tr);
    } else {
      JournalReadsBack(mac, l, d.journal, tr.stamps);
      assert JournalBytes(mac, l, d.journal, tr.stamps) + [] == JournalBytes(mac, l, d.journal, tr.stamps);
      assert ReadJournal(mac, MaxPacket(l), files.journal) == Some(d.journal);
    }
  }

  // ---------------------------------------------------------------- every write keeps the files and the disk together

  /** The journal file after one append: `cut` bytes of the packet when only part was written. */
  function AppendBytes(file: Option<seq<byte>>, packet: seq<byte>, outcome: AppendOutcome, cut: nat): Option<seq<byte>>
    requires cut <= |packet|
  {
    match outcome
    case Appended => Some(Contents(file) + packet)
    case Unconfirmed => Some(Contents(file) + packet)
    case NothingWritten => file
    case PartWritten => Some(Contents(file) + packet[..cut])
  }

  function AppendTrace(tr: Trace, d: Disk, packet: seq<byte>, stamp: Stamp, outcome: AppendOutcome, cut: nat): Trace
    requires cut <= |packet|
  {
    match outcome
    case NothingWritten => tr
    case PartWritten => tr.(tail := tr.tail + packet[..cut])
    case _ => if d.tear.Some? then tr.(tail := tr.tail + packet) else tr.(stamps := tr.stamps + [stamp])
  }

  lemma AppendedRecordExtendsTheJournal(mac: Mac, l: Limits, journal: seq<Record>, stamps: seq<Stamp>, r: Record,
        stamp: Stamp)
    requires JournalOk(l, journal) && StampsOk(stamps) && |journal| == |stamps| && JournalRecordOk(l, r)
    requires StampOk(stamp)
    ensures JournalOk(l, journal + [r]) && StampsOk(stamps + [stamp])
    ensures JournalBytes(mac, l, journal + [r], stamps + [stamp])
         == JournalBytes(mac, l, journal, stamps) + Seal(mac, JOURNAL_MAGIC, stamp.nonce, EncodeRecord(r, stamp.at))
  {
    var p := Sealed(stamp.nonce, EncodeRecord(r, stamp.at));
    SealedRecordsFit(l, journal, stamps);
    SealedRecordsFit(l, journal + [r], stamps + [stamp]);
    RecordFits(l, r, stamp);
    assert SealedRecords(journal + [r], stamps + [stamp]) == SealedRecords(journal, stamps) + [p];
    AppendedPacketExtendsTheFile(mac, MaxPacket(l), SealedRecords(journal, stamps), p);
  }

  function Contents(file: Option<seq<byte>>): seq<byte> {
    if file.Some? then file.value else []
  }

  lemma HeldBytes(mac: Mac, l: Limits, file: Option<seq<byte>>, d: Disk, tr: Trace)
    requires DiskOk(l, d) && JournalHolds(mac, l, file, d, tr)
    ensures Contents(file) == JournalBytes(mac, l, Whole(d), tr.stamps) + tr.tail
  {
    if file == None {
      assert Whole(d) == [] && tr.stamps == [] && [] + tr.tail == [];
    }
  }

  lemma AppendAfterTear(mac: Mac, l: Limits, file: Option<seq<byte>>, d: Disk, tr: Trace, more: seq<byte>, d': Disk)
    requires DiskOk(l, d) && DiskOk(l, d') && JournalHolds(mac, l, file, d, tr)
    requires d.tear.Some? && d'.tear == d.tear && d.journal <= d'.journal
    ensures JournalHolds(mac, l, Some(Contents(file) + more), d', tr.(tail := tr.tail + more))
  {
    hide JournalBytes;
    HeldBytes(mac, l, file, d, tr);
    TornStays(mac, MaxPacket(l), tr.tail, more);
    assert Whole(d') == Whole(d);
    var bytes := JournalBytes(mac, l, Whole(d), tr.stamps);
    assert bytes + tr.tail + more == bytes + (tr.tail + more);
  }

  lemma AppendCut(mac: Mac, l: Limits, file: Option<seq<byte>>, d: Disk, tr: Trace, part: seq<byte>)
    requires DiskOk(l, d) && JournalHolds(mac, l, file, d, tr) && d.tear == None && Torn(mac, MaxPacket(l), part)
    ensures JournalHolds(mac, l, Some(Contents(file) + part), d.(tear := Some(|d.journal|)),
                         tr.(tail := tr.tail + part))
  {
    hide JournalBytes, Torn;
    HeldBytes(mac, l, file, d, tr);
    var bytes := JournalBytes(mac, l, d.journal, tr.stamps);
    assert d.journal[..|d.journal|] == d.journal;
    assert bytes + [] + part == bytes + part && [] + part == part;
  }

  lemma AppendWhole(mac: Mac, l: Limits, file: Option<seq<byte>>, d: Disk, tr: Trace, r: Record, stamp: Stamp)
    requires DiskOk(l, d) && JournalHolds(mac, l, file, d, tr) && d.tear == None
    requires JournalRecordOk(l, r) && StampOk(stamp)
    ensures DiskOk(l, d.(journal := d.journal + [r]))
    ensures var packet := Seal(mac, JOURNAL_MAGIC, stamp.nonce, EncodeRecord(r, stamp.at));
            JournalHolds(mac, l, Some(Contents(file) + packet), d.(journal := d.journal + [r]),
                         tr.(stamps := tr.stamps + [stamp]))
  {
    hide JournalBytes, Seal, EncodeRecord;
    HeldBytes(mac, l, file, d, tr);
    AppendedRecordExtendsTheJournal(mac, l, d.journal, tr.stamps, r, stamp);
    AppendKeepsDiskOk(l, d, r, Appended);
    var bytes, packet := JournalBytes(mac, l, d.journal, tr.stamps),
        Seal(mac, JOURNAL_MAGIC, stamp.nonce, EncodeRecord(r, stamp.at));
    assert bytes + [] + packet == (bytes + packet) + [];
  }

  /** However an append ends, the files hold what the decoded disk says. */
  lemma AppendKeepsStored(mac: Mac, l: Limits, files: Files, d: Disk, tr: Trace, r: Record, stamp: Stamp,
      outcome: AppendOutcome, cut: nat)
    requires Stored(mac, l, files, d, tr) && JournalRecordOk(l, r) && StampOk(stamp)
    requires cut <= HEADER_SIZE + |EncodeRecord(r, stamp.at)|
    requires outcome == PartWritten ==> 0 < cut < HEADER_SIZE + |EncodeRecord(r, stamp.at)|
    ensures var packet := Seal(mac, JOURNAL_MAGIC, stamp.nonce, EncodeRecord(r, stamp.at));
            Stored(mac, l, files.(journal := AppendBytes(files.journal, packet, outcome, cut)), Append(d, r, outcome),
                   AppendTrace(tr, d, packet, stamp, outcome, cut))
  {
    hide Seal, EncodeRecord, JournalHolds, Torn;
    var p := Sealed(stamp.nonce, EncodeRecord(r, stamp.at));
    var packet := Seal(mac, JOURNAL_MAGIC, p.nonce, p.payload);
    RecordFits(l, r, stamp);
    AppendKeepsDiskOk(l, d, r, outcome);
    if outcome == NothingWritten {
    } else if d.tear.Some? {
      AppendAfterTear(mac, l, files.journal, d, tr, if outcome == PartWritten then packet[..cut] else packet,
          Append(d, r, outcome));
    } else if outcome == PartWritten {
      CutIsTorn(mac, MaxPacket(l), p, cut);
      AppendCut(mac, l, files.journal, d, tr, packet[..cut]);
    } else {
      AppendWhole(mac, l, files.journal, d, tr, r, stamp);
    }
  }

  lemma CutIsTorn(mac: Mac, max: nat, p: Sealed, cut: nat)
    requires Fits(max, p) && 0 < cut < HEADER_SIZE + |p.payload|
    ensures Torn(mac, max, Seal(mac, JOURNAL_MAGIC, p.nonce, p.payload)[..cut])
  {
    var part := Seal(mac, JOURNAL_MAGIC, p.nonce, p.payload)[..cut];
    assert Seal(mac, JOURNAL_MAGIC, p.nonce, p.payload)[..cut] <= part;
  }

  lemma AppendKeepsDiskOk(l: Limits, d: Disk, r: Record, outcome: AppendOutcome)
    requires DiskOk(l, d) && JournalRecordOk(l, r)
    ensures DiskOk(l, Append(d, r, outcome))
  {
  }

  lemma TornStays(mac: Mac, max: nat, tail: seq<byte>, more: seq<byte>)
    requires Torn(mac, max, tail)
    ensures Torn(mac, max, tail + more)
  {
    var p: Sealed, n: nat :|
      Fits(max, p) && 0 < n < HEADER_SIZE + |p.payload| && Seal(mac, JOURNAL_MAGIC, p.nonce, p.payload)[..n] <= tail;
    assert Seal(mac, JOURNAL_MAGIC, p.nonce, p.payload)[..n] <= tail + more;
  }

  /** The files after a checkpoint that wrote these bytes and got this far. */
  function CheckpointBytes(files: Files, packet: seq<byte>, outcome: CheckpointOutcome): Files {
    match outcome
    case Complete => Files(Some(packet), None)
    case NotRenamed => files
    case NotUnlinked => files.(checkpoint := Some(packet))
  }

  function CheckpointTrace(tr: Trace, stamp: Stamp, outcome: CheckpointOutcome): Trace {
    match outcome
    case Complete => Trace(stamp, [], [])
    case NotRenamed => tr
    case NotUnlinked => tr.(stamp := stamp)
  }

  /** However a checkpoint ends, the files hold what the decoded disk says. */
  lemma CheckpointKeepsStored(mac: Mac, l: Limits, files: Files, d: Disk, tr: Trace, x: Live, env: Env, stamp: Stamp)
    requires Stored(mac, l, files, d, tr) && ImageOk(l, Image(env.listing, x.clients)) && StampOk(stamp)
    ensures var packet := Seal(mac, STATE_MAGIC, stamp.nonce, EncodeImage(Image(env.listing, x.clients), stamp.at));
            Stored(mac, l, CheckpointBytes(files, packet, env.checkpoint), Checkpoint(x, d, env).0,
                   CheckpointTrace(tr, stamp, env.checkpoint))
  {
    hide Seal, EncodeImage;
  }

  lemma NoFilesAreStored(mac: Mac, l: Limits, stamp: Stamp)
    requires StampOk(stamp)
    ensures Stored(mac, l, Files(None, None), NO_FILES, Trace(stamp, [], []))
  {
  }

  /** Appending a packet to the journal file writes the journal with one more record. */
  lemma {:induction false} AppendedPacketExtendsTheFile(mac: Mac, max: nat, ps: seq<Sealed>, p: Sealed)
    requires AllFit(max, ps) && Fits(max, p) && AllFit(max, ps + [p])
    ensures Concat(mac, max, JOURNAL_MAGIC, ps + [p]) ==
            Concat(mac, max, JOURNAL_MAGIC, ps) + Seal(mac, JOURNAL_MAGIC, p.nonce, p.payload)
  {
    if |ps| == 0 {
      assert ps + [p] == [p] && [p][1..] == [];
    } else {
      assert (ps + [p])[1..] == ps[1..] + [p];
      assert forall i :: 0 <= i < |ps[1..] + [p]| ==> Fits(max, (ps[1..] + [p])[i]);
      AppendedPacketExtendsTheFile(mac, max, ps[1..], p);
    }
  }

  /** A journal file that ends inside a record does not load. */
  lemma TornJournalDoesNotLoad(mac: Mac, max: nat, l: Limits, files: Files, ps: seq<Sealed>, p: Sealed, n: nat, t: int)
    requires AllFit(max, ps) && Fits(max, p) && AllFit(max, ps + [p]) && 0 < n < HEADER_SIZE + |p.payload|
    requires var cut := Seal(mac, JOURNAL_MAGIC, p.nonce, p.payload)[..n];
             files.journal == Some(Concat(mac, max, JOURNAL_MAGIC, ps) + cut)
    ensures LoadFiles(mac, max, l, files, t) == None
  {
    var whole := Concat(mac, max, JOURNAL_MAGIC, ps + [p]);
    var m := |Concat(mac, max, JOURNAL_MAGIC, ps)| + n;
    AppendedPacketExtendsTheFile(mac, max, ps, p);
    assert files.journal.value == whole[..m];
    WholeFileSize(mac, max, JOURNAL_MAGIC, ps);
    PrefixReadsWholePackets(mac, max, JOURNAL_MAGIC, ps + [p], m);
    BoundariesAreWholePackets(ps + [p], |ps|, m);
    assert (ps + [p])[..|ps|] == ps;
  }

  lemma {:induction false} BoundariesAreWholePackets(ps: seq<Sealed>, k: nat, m: nat)
    requires k < |ps| && TotalSize(ps[..k]) < m < TotalSize(ps[..k]) + HEADER_SIZE + |ps[k].payload|
    ensures WholePackets(ps, m) == k
  {
    if k > 0 {
      assert ps[..k][1..] == ps[1..][..k - 1];
      BoundariesAreWholePackets(ps[1..], k - 1, m - (HEADER_SIZE + |ps[0].payload|));
    } else {
      assert ps[..0] == [];
    }
  }

  /**
   Restart refinement on the files themselves: while the claim is `Exact`, reading the bytes on disk at
   any later time gives exactly the live, unexpired entries and every client.
   */
  lemma RestartFromFiles(mac: Mac, l: Limits, files: Files, s: State, tr: Trace, t: int)
    requires FieldsFit(l) && Stored(mac, l, files, s.disk, tr) && Holds(l, Exact, s.disk, s.live, s.clock)
    requires t >= s.clock
    ensures LoadFiles(mac, MaxPacket(l), l, files, t) == Some(View(s.live, t))
  {
    assert Load(l, s.disk, t) == Some(View(s.live, t));
    LoadingFilesIsLoadingTheDisk(mac, l, files, s.disk, tr, t);
  }

  // ---------------------------------------------------------------- export and import

  /**
   The state codec round trip: what a well-formed state serializes to at one time deserializes, on any
   clock, into an empty store and registry as exactly the entries unexpired at the later of both times
   and every client in order.
   */
  lemma StateCodecRoundTrip(l: Limits, x: Live, entries: seq<(Key, Entry)>, now: int, t: int)
    requires FieldsFit(l) && WellFormed(l, x) && TimesOk(x.table) && |entries| < TWO_32
    requires Lists(entries, Active(x.table, now)) && 0 <= Later(now, t) && IsInt64(now)
    ensures var image := ParseImage(EncodeImage(Image(entries, x.clients), now));
            image.Some? && Replay(l, EMPTY, ImageRecords(image.value), t) == Some(View(x, Later(now, t)))
  {
    StateImageOk(l, x, entries, now);
    assert forall i :: 0 <= i < |entries| ==> EntryEncodable(entries[i]);
    ImageReadsBack(Image(entries, x.clients), now);
    ImageLoadsAtAnyTime(l, entries, x, now, t);
  }

  /** What an import reads out of an export file. */
  function ReadExport(mac: Mac, max: nat, file: Option<seq<byte>>): Option<Image> {
    match ReadPacketFile(mac, max, EXPORT_MAGIC, file)
    case Absent => None
    case Unreadable => None
    case Payload(p) => ParseImage(p)
  }

  /** An export file reads back as its image exactly when that is below 4 GiB; otherwise it is refused. */
  lemma ExportReadsBackExactlyBelow4GiB(mac: Mac, l: Limits, image: Image, stamp: Stamp)
    requires FieldsFit(l) && ImageOk(l, image) && StampOk(stamp)
    ensures ReadExport(mac, MaxPacket(l), Some(Seal(mac, EXPORT_MAGIC, stamp.nonce, EncodeImage(image, stamp.at))))
         == if Loadable(image) then Some(image) else None
  {
    hide EncodeImage, ReadPacketFile, ParseImage;
    ImageFits(l, image, stamp);
    PacketFileReadsBackExactlyBelow4GiB(mac, MaxPacket(l), EXPORT_MAGIC, stamp.nonce, EncodeImage(image, stamp.at));
    if Loadable(image) {
      ImageReadsBack(image, stamp.at);
    }
  }

  /**
   Importing an export, on a clock ahead of the exporter's or behind it, replaces the live state by the
   exported one, minus what has expired at the later of both times; an export of 4 GiB or more changes nothing.
   */
  lemma ExportThenImport(mac: Mac, cfg: Config, s: State, x: Live, entries: seq<(Key, Entry)>, stamp: Stamp, now: int,
        env: Env)
    requires FieldsFit(cfg.limits) && WellFormed(cfg.limits, x) && TimesOk(x.table)
    requires StampOk(stamp) && 0 <= Later(stamp.at, now) && Lists(entries, Active(x.table, stamp.at))
    ensures var image := Image(entries, x.clients);
            var file := Some(Seal(mac, EXPORT_MAGIC, stamp.nonce, EncodeImage(image, stamp.at)));
            var s' := Step(cfg, s, ImportImage(ReadExport(mac, MaxPacket(cfg.limits), file)), now, env).0;
            if Loadable(image) then s'.live == View(x, Later(stamp.at, now)) else s' == s.(clock := now)
  {
    hide ReadExport, Seal, EncodeImage;
    StateImageOk(cfg.limits, x, entries, stamp.at);
    ExportReadsBackExactlyBelow4GiB(mac, cfg.limits, Image(entries, x.clients), stamp);
    ImportedImageIsLive(cfg, s, x, entries, stamp.at, now, env);
  }

  lemma ImportedImageIsLive(cfg: Config, s: State, x: Live, entries: seq<(Key, Entry)>, at: int, now: int, env: Env)
    requires WellFormed(cfg.limits, x) && 0 <= Later(at, now) && Lists(entries, Active(x.table, at))
    ensures Step(cfg, s, ImportImage(Some(Image(entries, x.clients))), now, env).0.live == View(x, Later(at, now))
  {
    hide Replay, ImageRecords, WellFormed;
    ImageLoadsAtAnyTime(cfg.limits, entries, x, at, now);
  }

  // ---------------------------------------------------------------- whatever an import parses

  lemma TakenU32IsBounded(s: seq<byte>)
    ensures TakeU32(s).Got? ==> TakeU32(s).value < TWO_32
    ensures TakeU64(s).Got? ==> IsInt64(Signed64(TakeU64(s).value))
  {
    if |s| >= 4 {
      FromBigEndianBound(s[..4]);
    }
    if |s| >= 8 {
      FromBigEndianBound(s[..8]);
    }
    Pow256Values();
  }

  lemma ParsedEntryIsGood(s: seq<byte>)
    ensures ParseEntry(s).Got? ==> IsInt64(ParseEntry(s).value.1.expires)
  {
    var a := TakeU32(s);
    if a.Got? {
      var b := TakeU32(a.rest);
      if b.Got? {
        TakenU32IsBounded(b.rest);
      }
    }
  }

  lemma ParsedClientIsGood(s: seq<byte>, version: nat)
    ensures ParseClient(s, version).Got? ==>
              |ParseClient(s, version).value.hash| == Clients.HASH_SIZE && ParseClient(s, version).value.role < TWO_32
  {
    var a := TakeU32(s);
    if a.Got? {
      TakenU32IsBounded(a.rest);
    }
  }

  lemma {:induction false} ParsedManyAreGood<T(!new)>(parse: seq<byte> -> Parsed<T>, good: T -> bool, s: seq<byte>,
        n: nat)
    requires forall s :: parse(s).Got? ==> good(parse(s).value)
    ensures var r := ParseMany(parse, s, n); r.Got? ==> forall i :: 0 <= i < |r.value| ==> good(r.value[i])
    decreases n
  {
    if n > 0 && parse(s).Got? {
      ParsedManyAreGood(parse, good, parse(s).rest, n - 1);
    }
  }

  /** Whatever bytes an import is given, the records it decodes have 64-bit times, 32-byte digests and 32-bit roles. */
  lemma ParsedImageIsGood(s: seq<byte>)
    ensures ParseImage(s).Some? ==> GoodLog(ImageRecords(ParseImage(s).value))
  {
    hide ParseEntry, ParseClient, ParseImageHead;
    var head := ParseImageHead(s);
    if ParseImage(s).Some? {
      var goodEntry := (e: (Key, Entry)) => IsInt64(e.1.expires);
      var goodClient := (c: Clients.Client) => |c.hash| == Clients.HASH_SIZE && c.role < TWO_32;
      forall s
        ensures ParseEntry(s).Got? ==> goodEntry(ParseEntry(s).value)
      {
        ParsedEntryIsGood(s);
      }
      forall s
        ensures ClientParser(head.value.0)(s).Got? ==> goodClient(ClientParser(head.value.0)(s).value)
      {
        ParsedClientIsGood(s, head.value.0);
      }
      ParsedManyAreGood(ParseEntry, goodEntry, head.rest, head.value.1);
      var entries := ParseEntries(head.rest, head.value.1);
      var count := TakeU32(entries.rest);
      ParsedManyAreGood(ClientParser(head.value.0), goodClient, count.rest, count.value);
      var image := ParseImage(s).value;
      assert forall i :: 0 <= i < |image.entries| ==> goodEntry(image.entries[i]);
      assert forall i :: 0 <= i < |image.clients| ==> goodClient(image.clients[i]);
      assert GoodLog(EntryRecords(image.entries)) && GoodLog(ClientRecords(image.clients));
    }
  }
}
