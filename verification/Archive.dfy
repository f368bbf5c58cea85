/** The storage object: the checkpoint and journal files as bytes, kept together with the disk they hold. */
module Archive {
  import opened Bytes
  import opened CacheTable
  import opened Recovery
  import opened Machine
  import opened HashStore
  import opened Registry
  import opened Files
  import Codec
  import Crypto
  import Packet
  import Serializer
  import Storage

  class Archive {
    const limits: Limits
    const storageKey: seq<byte>
    ghost const mac: Packet.Mac
    var files: Files
    ghost var disk: Disk
    ghost var trace: Trace

    /** What configuration and memory allow: 32-bit sizes, and a memory limit whose images the hash can authenticate. */
    ghost predicate Configured() {
      && FieldsFit(limits) && |storageKey| < Crypto.MESSAGE_LIMIT && mac == Crypto.HmacWith(storageKey)
      && MaxPacket(limits) < Storage.FILE_LIMIT - Packet.HEADER_SIZE
    }

    ghost predicate Valid()
      reads this
    {
      Configured() && Stored(mac, limits, files, disk, trace)
    }

    /** Take over files that hold a disk; without files, the empty one. */
    constructor (limits: Limits, storageKey: seq<byte>, files: Files, ghost disk: Disk, ghost trace: Trace)
      requires FieldsFit(limits) && |storageKey| < Crypto.MESSAGE_LIMIT
      requires MaxPacket(limits) < Storage.FILE_LIMIT - Packet.HEADER_SIZE
      requires Stored(Crypto.HmacWith(storageKey), limits, files, disk, trace)
      ensures Valid() && this.limits == limits && this.storageKey == storageKey
      ensures this.files == files && this.disk == disk && this.trace == trace
    {
      this.limits, this.storageKey, this.mac := limits, storageKey, Crypto.HmacWith(storageKey);
      this.files, this.disk, this.trace := files, disk, trace;
    }

    /** Append one record as a packet; `cut` says where a partial write stops. */
    method Append(r: Record, now: int, nonce: seq<byte>, outcome: AppendOutcome, cut: nat) returns (ok: bool)
      requires Valid() && JournalRecordOk(limits, r) && StampOk(Stamp(nonce, now))
      modifies this
      ensures Valid() && disk == Machine.Append(old(disk), r, outcome) && ok == (outcome == Appended)
    {
      hide Stored, Crypto.HmacWith, Codec.EncodeRecord, Packet.Seal, AppendTrace;
      ghost var stamp := Stamp(nonce, now);
      RecordFits(limits, r, stamp);
      var payload := Serializer.BuildRecord(r, now);
      var packet := Storage.BuildPacket(storageKey, MaxPacket(limits), JOURNAL_MAGIC, nonce, payload, mac);
      var n := if 0 < cut < |packet.value| then cut else 1;
      AppendKeepsStored(mac, limits, files, disk, trace, r, stamp, outcome, n);
      files := files.(journal := AppendBytes(files.journal, packet.value, outcome, n));
      trace := AppendTrace(trace, disk, packet.value, stamp, outcome, n);
      disk := Machine.Append(disk, r, outcome);
      ok := outcome == Appended;
    }

    /** Serialize and seal the state, rename it into place and remove the journal, as far as that gets. */
    method Checkpoint(store: Store, registry: Registry, now: int, nonce: seq<byte>, append: nat -> AppendOutcome,
        outcome: CheckpointOutcome)
        returns (ok: bool, ghost env: Env)
      requires Valid() && store.Valid() && registry.Valid() && store.limits == limits && StampOk(Stamp(nonce, now))
      requires WellFormed(limits, Storage.Contents(store, registry)) && TimesOk(store.Table())
      modifies this
      ensures Valid() && store.Valid() && registry.Valid()
      ensures env.append == append && env.checkpoint == outcome && Lists(env.listing, Active(store.Table(), now))
      ensures (disk, ok) == Machine.Checkpoint(Storage.Contents(store, registry), old(disk), env)
    {
      hide Stored, Crypto.HmacWith, Codec.EncodeImage, Packet.Seal, Accounted, WellFormed, ImageOk;
      ghost var stamp := Stamp(nonce, now);
      var payload, entries := Serializer.Serialize(store, registry, now);
      ghost var x := Storage.Contents(store, registry);
      env := Env(append, outcome, entries);
      StateImageOk(limits, x, entries, now);
      ImageFits(limits, Image(entries, x.clients), stamp);
      var packet := Storage.BuildPacket(storageKey, MaxPacket(limits), STATE_MAGIC, nonce, payload.value, mac);
      CheckpointKeepsStored(mac, limits, files, disk, trace, x, env, stamp);
      files := CheckpointBytes(files, packet.value, outcome);
      trace := CheckpointTrace(trace, stamp, outcome);
      disk := Machine.Checkpoint(x, disk, env).0;
      ok := outcome == Complete;
    }
  }
}
