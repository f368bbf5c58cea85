/**
 The durability protocol as a state machine: live state in memory, two files on disk and a clock.
 A step is one request that passed authorization, a sweep, a shutdown or a restart. File-system
 calls are atomic and may fail; a crash inside a step is that step with failing outcomes followed
 by a restart, since a restart forgets the live state.
 */
module Machine {
  import opened Bytes
  import opened CacheTable
  import opened Recovery
  import Clients

  datatype Config = Config(limits: Limits, minTtl: nat, maxTtl: nat)

  /** How appending one record to the journal file ends; `Unconfirmed` wrote all of it and reported a failure. */
  datatype AppendOutcome = Appended | NothingWritten | PartWritten | Unconfirmed

  /** How far "write a temporary file, rename it, remove the journal" gets. */
  datatype CheckpointOutcome = Complete | NotRenamed | NotUnlinked

  /** What the environment decides: each append of the step, the checkpoint, and the bucket order. */
  datatype Env = Env(append: nat -> AppendOutcome, checkpoint: CheckpointOutcome, listing: seq<(Key, Entry)>)

  datatype State = State(live: Live, disk: Disk, clock: int)

  datatype Event =
    | Get(key: Key)
    | PutEntry(key: Key, value: seq<byte>, ttl: nat)
    | DeleteKey(key: Key)
    | DeleteKeys(keys: seq<Key>)
    | DeleteAll
    | RegisterClient(id: seq<byte>, role: nat, hash: seq<byte>)
    | RotateToken(id: seq<byte>, hash: seq<byte>)
    | InvalidateToken(id: seq<byte>)
    | Export(hasRoom: bool, written: bool)
    | ImportImage(image: Option<Image>)
    | Sweep
    | Shutdown
    | Restart

  // ---------------------------------------------------------------- the files

  function Append(d: Disk, r: Record, outcome: AppendOutcome): Disk {
    match outcome
    case Appended => d.(journal := d.journal + [r])
    case NothingWritten => d
    case PartWritten => if d.tear.Some? then d else d.(tear := Some(|d.journal|))
    case Unconfirmed => d.(journal := d.journal + [r])
  }

  function Checkpoint(x: Live, d: Disk, env: Env): (r: (Disk, bool)) {
    var image := Some(Image(env.listing, x.clients));
    match env.checkpoint
    case Complete => (Disk(image, [], None), true)
    case NotRenamed => (d, false)
    case NotUnlinked => (d.(checkpoint := image), false)
  }

  /** Append the record; when that fails, write a full checkpoint instead. */
  function Save(x: Live, d: Disk, r: Record, env: Env): (s: (Disk, bool)) {
    var d' := Append(d, r, env.append(0));
    if env.append(0) == Appended then (d', true) else Checkpoint(x, d', env)
  }

  // ---------------------------------------------------------------- the steps

  datatype Purge = Purge(table: Table, disk: Disk, failed: bool, purged: nat)

  /** Delete the listed keys from index `i` on; after the first failing append nothing is appended. */
  function PurgeFrom(p: Purge, keys: seq<Key>, i: nat, env: Env): Purge
    requires i <= |keys|
    decreases |keys| - i
  {
    if i == |keys| then p
    else if keys[i] !in p.table then PurgeFrom(p, keys, i + 1, env)
    else
      var d := if p.failed then p.disk else Append(p.disk, Remove(keys[i]), env.append(i));
      var failed := p.failed || env.append(i) != Appended;
      PurgeFrom(Purge(p.table - {keys[i]}, d, failed, p.purged + 1), keys, i + 1, env)
  }

  /** What a failing start has loaded when it stops: everything before the first refused record. */
  ghost function Salvage(l: Limits, x: Live, log: seq<Record>, t: int): Live
    decreases |log|
  {
    if |log| == 0 then x
    else
      match Apply(l, x, log[0], t)
      case None => x
      case Some(y) => Salvage(l, y, log[1..], t)
  }

  lemma {:induction false} SalvageConcat(l: Limits, x: Live, a: seq<Record>, b: seq<Record>, t: int)
    ensures Salvage(l, x, a + b, t) ==
            match Replay(l, x, a, t)
            case Some(y) => Salvage(l, y, b, t)
            case None => Salvage(l, x, a, t)
    decreases |a|
  {
    if |a| == 0 {
      assert a + b == b;
    } else {
      var first := Apply(l, x, a[0], t);
      assert (a + b)[1..] == a[1..] + b && [a[0]] + a[1..] == a && [a[0]][..0] == [];
      ReplayConcat(l, x, [a[0]], a[1..], t);
      if first.Some? {
        SalvageConcat(l, first.value, a[1..], b, t);
      }
    }
  }

  /** What a start gets to apply: nothing behind an unreadable checkpoint, and nothing from a torn record on. */
  function ReadableLog(d: Disk): seq<Record> {
    if !CheckpointReadable(d) then []
    else if d.tear.Some? && d.tear.value <= |d.journal| then Log(d.(journal := d.journal[..d.tear.value])) else Log(d)
  }

  function Answer(saved: bool): nat {
    if saved then 200 else 500
  }

  function ChangeClient(s: State, w: (Clients.Status, seq<Clients.Client>), id: seq<byte>, now: int, env: Env)
        : (State, nat)
  {
    if w.0 != Clients.Ok then
      (s.(clock := now),
       if w.0 == Clients.NotFound then 404 else if w.0 == Clients.Conflict then 409 else 400)
    else
      var x := s.live.(clients := w.1);
      match Clients.Lookup(w.1, id)
      case None => (State(x, s.disk, now), 500)
      case Some(c) =>
        var saved := Save(x, s.disk, Upsert(c), env);
        (State(x, saved.0, now), Answer(saved.1))
  }

  ghost function Step(cfg: Config, s: State, e: Event, now: int, env: Env): (r: (State, nat)) {
    var l, x, d := cfg.limits, s.live, s.disk;
    match e
    case Get(k) =>
      var g := CacheTable.Get(x.table, k, now);
      (State(x.(table := g.1), d, now), if g.0 == Ok then 200 else 404)
    case PutEntry(k, v, ttl) =>
      if !(cfg.minTtl <= ttl <= cfg.maxTtl) then (s.(clock := now), 400)
      else
        var w := Write(l, x.table, k, v, now + ttl);
        if w.0 != Ok then (s.(clock := now), 413)
        else
          var x' := x.(table := w.1);
          var saved := Save(x', d, Set(k, v, now + ttl), env);
          (State(x', saved.0, now), Answer(saved.1))
    case DeleteKey(k) =>
      if k !in x.table then (s.(clock := now), 404)
      else
        var x' := x.(table := x.table - {k});
        var saved := Save(x', d, Remove(k), env);
        (State(x', saved.0, now), Answer(saved.1))
    case DeleteKeys(keys) =>
      var p := PurgeFrom(Purge(x.table, d, false, 0), keys, 0, env);
      var x' := x.(table := p.table);
      var saved := if p.failed then Checkpoint(x', p.disk, env) else (p.disk, true);
      (State(x', saved.0, now), Answer(saved.1))
    case DeleteAll =>
      var x' := x.(table := map[]);
      var saved := Save(x', d, Record.PurgeAll, env);
      (State(x', saved.0, now), Answer(saved.1))
    case RegisterClient(id, role, hash) => ChangeClient(s, Clients.Register(x.clients, id, role, hash), id, now, env)
    case RotateToken(id, hash) => ChangeClient(s, Clients.Rotate(x.clients, id, hash), id, now, env)
    case InvalidateToken(id) => ChangeClient(s, Clients.Invalidate(x.clients, id), id, now, env)
    case Export(hasRoom, written) =>
      if !hasRoom then (s.(clock := now), 500)
      else
        var saved := Checkpoint(x, d, env);
        (State(x, saved.0, now), Answer(saved.1 && written))
    case ImportImage(image) =>
      var loaded := if image.None? then None else Replay(l, EMPTY, ImageRecords(image.value), now);
      if loaded.None? then (s.(clock := now), 400)
      else
        var saved := Checkpoint(loaded.value, d, env);
        (State(loaded.value, saved.0, now), if saved.1 then 200 else 400)
    case Sweep => (State(x.(table := Active(x.table, now)), d, now), 0)
    case Shutdown => (State(x, Checkpoint(x, d, env).0, now), 0)
    case Restart =>
      match Load(l, d, now)
      case Some(y) => (State(y, d, now), 0)
      case None =>
        var y := Salvage(l, EMPTY, ReadableLog(d), now);
        (State(y, Checkpoint(y, d, env).0, now), 1)
  }

  // ---------------------------------------------------------------- what every step keeps

  predicate GoodRecord(r: Record) {
    && (r.Upsert? ==> |r.client.hash| == Clients.HASH_SIZE && r.client.role < TWO_32)
    && (r.Set? ==> IsInt64(r.expires))
  }

  predicate GoodLog(log: seq<Record>) {
    forall i :: 0 <= i < |log| ==> GoodRecord(log[i])
  }

  predicate TimesOk(t: Table) {
    forall k :: k in t ==> IsInt64(t[k].expires)
  }

  ghost predicate WellFormed(l: Limits, x: Live) {
    WithinLimits(l, x.table) && Clients.WellFormed(x.clients)
  }

  /** The buffer a request is read into; keys and values taken from it are shorter. */
  const REQUEST_CAPACITY: nat := 65536

  /** A record the handlers write: within limits and request buffers, with a 64-bit expiry, or a well-formed client. */
  predicate JournalRecordOk(l: Limits, r: Record) {
    match r
    case Set(k, v, e) =>
      && SizesAllowed(l, k, v) && Cost(k, v) <= l.memory && IsInt64(e)
      && |k| < REQUEST_CAPACITY && |v| < REQUEST_CAPACITY
    case Remove(k) => |k| <= l.maxKey && Cost(k, []) <= l.memory && |k| < REQUEST_CAPACITY
    case Upsert(c) => Clients.WellFormedClient(c)
    case PurgeAll => true
  }

  predicate JournalOk(l: Limits, journal: seq<Record>) {
    forall i :: 0 <= i < |journal| ==> JournalRecordOk(l, journal[i])
  }

  /** An image the checkpoints write. */
  predicate ImageOk(l: Limits, image: Image) {
    && ListingCost(image.entries) <= l.memory
    && (forall i :: 0 <= i < |image.entries| ==>
          SizesAllowed(l, image.entries[i].0, image.entries[i].1.value) && IsInt64(image.entries[i].1.expires))
    && Clients.WellFormed(image.clients)
  }

  predicate DiskOk(l: Limits, d: Disk) {
    && JournalOk(l, d.journal) && (d.checkpoint.Some? ==> ImageOk(l, d.checkpoint.value))
    && (d.tear.Some? ==> d.tear.value <= |d.journal|)
  }

  /** What the handlers guarantee of their arguments: buffer sizes, digest lengths, 32-bit roles, 64-bit times. */
  predicate GoodEvent(e: Event) {
    match e
    case PutEntry(k, v, _) => |k| < REQUEST_CAPACITY && |v| < REQUEST_CAPACITY
    case DeleteKey(k) => |k| < REQUEST_CAPACITY
    case DeleteKeys(keys) => forall i :: 0 <= i < |keys| ==> |keys[i]| < REQUEST_CAPACITY
    case RegisterClient(_, role, hash) => |hash| == Clients.HASH_SIZE && role < TWO_32
    case RotateToken(_, hash) => |hash| == Clients.HASH_SIZE
    case ImportImage(image) => image.Some? ==> GoodLog(ImageRecords(image.value))
    case _ => true
  }

  /** What configuration loading guarantees: 32-bit limits and times to live. */
  predicate ConfigOk(cfg: Config) {
    cfg.limits.maxKey < TWO_32 && cfg.limits.maxValue < TWO_32 && cfg.maxTtl < TWO_32
  }

  ghost predicate Inv(cfg: Config, s: State) {
    && ConfigOk(cfg)
    && WellFormed(cfg.limits, s.live) && TimesOk(s.live.table)
    && DiskOk(cfg.limits, s.disk)
    && s.clock >= 0
  }

  /** Far enough in the past that adding a time to live cannot leave the 64-bit range. */
  const LAST_CLOCK: int := TWO_63 - TWO_32

  /** A step the environment allows: time does not go back and a checkpoint lists what is active. */
  ghost predicate Allowed(cfg: Config, s: State, e: Event, now: int, env: Env) {
    && s.clock <= now <= LAST_CLOCK
    && GoodEvent(e)
    && Lists(env.listing, Active(Step(cfg, s, e, now, env).0.live.table, now))
  }

  lemma ApplyKeepsWellFormed(l: Limits, x: Live, r: Record, t: int)
    requires WellFormed(l, x) && TimesOk(x.table) && GoodRecord(r)
    ensures Apply(l, x, r, t).Some? ==>
              WellFormed(l, Apply(l, x, r, t).value) && TimesOk(Apply(l, x, r, t).value.table)
  {
    match r {
      case Set(k, v, e) => WriteKeepsLimits(l, x.table, k, v, e);
      case Remove(k) => SubTableKeepsLimits(l, x.table - {k}, x.table);
      case Upsert(c) => Clients.RegistryOperationsKeepWellFormed(x.clients, c.id, c.role, c.hash, c.active);
      case PurgeAll => SubTableKeepsLimits(l, map[], x.table);
    }
  }

  lemma {:induction false} ReplayKeepsWellFormed(l: Limits, x: Live, log: seq<Record>, t: int)
    requires WellFormed(l, x) && TimesOk(x.table) && GoodLog(log)
    ensures Replay(l, x, log, t).Some? ==>
              WellFormed(l, Replay(l, x, log, t).value) && TimesOk(Replay(l, x, log, t).value.table)
  {
    if |log| > 0 {
      var front := log[..|log| - 1];
      assert GoodLog(front);
      ReplayKeepsWellFormed(l, x, front, t);
      if Replay(l, x, front, t).Some? {
        ApplyKeepsWellFormed(l, Replay(l, x, front, t).value, log[|log| - 1], t);
      }
    }
  }

  lemma {:induction false} SalvageKeepsWellFormed(l: Limits, x: Live, log: seq<Record>, t: int)
    requires WellFormed(l, x) && TimesOk(x.table) && GoodLog(log)
    ensures WellFormed(l, Salvage(l, x, log, t)) && TimesOk(Salvage(l, x, log, t).table)
    decreases |log|
  {
    if |log| > 0 && Apply(l, x, log[0], t).Some? {
      ApplyKeepsWellFormed(l, x, log[0], t);
      SalvageKeepsWellFormed(l, Apply(l, x, log[0], t).value, log[1..], t);
    }
  }

  lemma EmptyWellFormed(l: Limits)
    ensures WellFormed(l, EMPTY) && TimesOk(EMPTY.table)
  {
  }

  lemma DiskLogIsGood(l: Limits, d: Disk)
    requires DiskOk(l, d)
    ensures GoodLog(Log(d))
  {
    if d.checkpoint.Some? {
      var image := d.checkpoint.value;
      assert forall i :: 0 <= i < |image.clients| ==> Clients.WellFormedClient(image.clients[i]);
      assert GoodLog(EntryRecords(image.entries)) && GoodLog(ClientRecords(image.clients));
    }
    assert forall i :: 0 <= i < |d.journal| ==> JournalRecordOk(l, d.journal[i]) && GoodRecord(d.journal[i]);
  }

  /** What a checkpoint or an export writes is an acceptable image. */
  lemma StateImageOk(l: Limits, x: Live, entries: seq<(Key, Entry)>, now: int)
    requires WellFormed(l, x) && TimesOk(x.table) && Lists(entries, Active(x.table, now))
    ensures ImageOk(l, Image(entries, x.clients))
  {
    ListingCostIsTotalCost(entries, Active(x.table, now));
    TotalCostMonotone(Active(x.table, now), x.table);
    forall i | 0 <= i < |entries|
      ensures SizesAllowed(l, entries[i].0, entries[i].1.value) && IsInt64(entries[i].1.expires)
    {
      assert entries[i].0 in x.table;
    }
  }

  lemma {:induction false} EntriesAreCharged(entries: seq<(Key, Entry)>)
    ensures EntryBytes(entries) + 33 * |entries| == ListingCost(entries)
  {
    if |entries| > 0 {
      EntriesAreCharged(entries[..|entries| - 1]);
    }
  }

  lemma {:induction false} ClientsAreSmall(cs: seq<Clients.Client>)
    requires forall i :: 0 <= i < |cs| ==> Clients.WellFormedClient(cs[i])
    ensures ClientBytes(cs) <= 107 * |cs|
  {
    if |cs| > 0 {
      ClientsAreSmall(cs[..|cs| - 1]);
      assert Clients.WellFormedClient(cs[|cs| - 1]);
    }
  }

  /** Room for the clients and the counters beside the cache's own ceiling: 16 MiB. */
  const PACKET_OVERHEAD: nat := 16 * 1024 * 1024

  /** Every image within the limits is within the packet bound, and can be loaded when that bound is below 4 GiB. */
  lemma ImagesFitThePacketBound(l: Limits, image: Image)
    requires ImageOk(l, image)
    ensures ImageSize(image) <= l.memory + PACKET_OVERHEAD
    ensures l.memory + PACKET_OVERHEAD < TWO_32 ==> Loadable(image)
  {
    EntriesAreCharged(image.entries);
    ClientsAreSmall(image.clients);
  }

  lemma CheckpointKeepsDiskOk(l: Limits, x: Live, d: Disk, env: Env, now: int)
    requires WellFormed(l, x) && TimesOk(x.table) && DiskOk(l, d) && Lists(env.listing, Active(x.table, now))
    ensures DiskOk(l, Checkpoint(x, d, env).0)
  {
    StateImageOk(l, x, env.listing, now);
  }

  lemma SaveKeepsDiskOk(l: Limits, x: Live, d: Disk, r: Record, env: Env, now: int)
    requires WellFormed(l, x) && TimesOk(x.table) && DiskOk(l, d) && JournalRecordOk(l, r)
    requires Lists(env.listing, Active(x.table, now))
    ensures DiskOk(l, Save(x, d, r, env).0)
  {
    if env.append(0) != Appended {
      CheckpointKeepsDiskOk(l, x, Append(d, r, env.append(0)), env, now);
    }
  }

  lemma KeyIsJournalable(l: Limits, t: Table, k: Key)
    requires WithinLimits(l, t) && k in t && |k| < REQUEST_CAPACITY
    ensures JournalRecordOk(l, Remove(k))
  {
    TotalCostSplit(t, k);
  }

  lemma {:induction false} PurgeKeepsInv(l: Limits, p: Purge, keys: seq<Key>, i: nat, env: Env)
    requires i <= |keys| && DiskOk(l, p.disk) && WithinLimits(l, p.table)
    requires forall j :: 0 <= j < |keys| ==> |keys[j]| < REQUEST_CAPACITY
    ensures DiskOk(l, PurgeFrom(p, keys, i, env).disk)
    ensures SubTable(PurgeFrom(p, keys, i, env).table, p.table)
    decreases |keys| - i
  {
    if i < |keys| {
      if keys[i] !in p.table {
        PurgeKeepsInv(l, p, keys, i + 1, env);
      } else {
        KeyIsJournalable(l, p.table, keys[i]);
        SubTableKeepsLimits(l, p.table - {keys[i]}, p.table);
        var d := if p.failed then p.disk else Append(p.disk, Remove(keys[i]), env.append(i));
        var q := Purge(p.table - {keys[i]}, d, p.failed || env.append(i) != Appended, p.purged + 1);
        PurgeKeepsInv(l, q, keys, i + 1, env);
      }
    }
  }

  lemma ChangeClientKeepsInv(cfg: Config, s: State, w: (Clients.Status, seq<Clients.Client>), id: seq<byte>, now: int,
        env: Env)
    requires Inv(cfg, s) && Clients.WellFormed(w.1) && s.clock <= now
    requires Lists(env.listing, Active(s.live.table, now))
    ensures Inv(cfg, ChangeClient(s, w, id, now, env).0)
  {
    if w.0 == Clients.Ok && Clients.Lookup(w.1, id).Some? {
      assert Clients.WellFormedClient(w.1[Clients.IndexOf(w.1, id)]);
      SaveKeepsDiskOk(cfg.limits, s.live.(clients := w.1), s.disk, Upsert(Clients.Lookup(w.1, id).value), env, now);
    }
  }

  lemma PutKeepsInv(cfg: Config, s: State, e: Event, now: int, env: Env)
    requires Inv(cfg, s) && Allowed(cfg, s, e, now, env) && e.PutEntry?
    ensures Inv(cfg, Step(cfg, s, e, now, env).0)
  {
    var l, x, k, v, expires := cfg.limits, s.live, e.key, e.value, now + e.ttl;
    if cfg.minTtl <= e.ttl <= cfg.maxTtl && Write(l, x.table, k, v, expires).0 == Ok {
      WriteKeepsLimits(l, x.table, k, v, expires);
      SetIsJournalable(l, x.table, k, v, expires);
      SaveKeepsDiskOk(l, x.(table := x.table[k := Entry(v, expires)]), s.disk, Set(k, v, expires), env, now);
    }
  }

  lemma SetIsJournalable(l: Limits, t: Table, k: Key, v: seq<byte>, expires: int)
    requires Write(l, t, k, v, expires).0 == Ok && IsInt64(expires)
    requires |k| < REQUEST_CAPACITY && |v| < REQUEST_CAPACITY
    ensures JournalRecordOk(l, Set(k, v, expires))
  {
    TotalCostSplit(t[k := Entry(v, 0)], k);
  }

  lemma DeleteKeepsInv(cfg: Config, s: State, e: Event, now: int, env: Env)
    requires Inv(cfg, s) && Allowed(cfg, s, e, now, env)
    requires e.DeleteKey? || e.DeleteKeys? || e.DeleteAll?
    ensures Inv(cfg, Step(cfg, s, e, now, env).0)
  {
    var l, x, d := cfg.limits, s.live, s.disk;
    match e {
      case DeleteKey(k) =>
        if k in x.table {
          KeyIsJournalable(l, x.table, k);
          SubTableKeepsLimits(l, x.table - {k}, x.table);
          SaveKeepsDiskOk(l, x.(table := x.table - {k}), d, Remove(k), env, now);
        }
      case DeleteKeys(keys) =>
        var p := PurgeFrom(Purge(x.table, d, false, 0), keys, 0, env);
        PurgeKeepsInv(l, Purge(x.table, d, false, 0), keys, 0, env);
        SubTableKeepsLimits(l, p.table, x.table);
        CheckpointKeepsDiskOk(l, x.(table := p.table), p.disk, env, now);
      case DeleteAll =>
        SubTableKeepsLimits(l, map[], x.table);
        SaveKeepsDiskOk(l, x.(table := map[]), d, Record.PurgeAll, env, now);
    }
  }

  lemma ReadKeepsInv(cfg: Config, s: State, e: Event, now: int, env: Env)
    requires Inv(cfg, s) && s.clock <= now && (e.Get? || e.Sweep?)
    ensures Inv(cfg, Step(cfg, s, e, now, env).0)
  {
    SubTableKeepsLimits(cfg.limits, Step(cfg, s, e, now, env).0.live.table, s.live.table);
  }

  lemma ClientStepKeepsInv(cfg: Config, s: State, e: Event, now: int, env: Env)
    requires Inv(cfg, s) && Allowed(cfg, s, e, now, env)
    requires e.RegisterClient? || e.RotateToken? || e.InvalidateToken?
    ensures Inv(cfg, Step(cfg, s, e, now, env).0)
  {
    var cs := s.live.clients;
    match e {
      case RegisterClient(id, role, hash) =>
        Clients.RegistryOperationsKeepWellFormed(cs, id, role, hash, true);
        ChangeClientKeepsInv(cfg, s, Clients.Register(cs, id, role, hash), id, now, env);
      case RotateToken(id, hash) =>
        Clients.RegistryOperationsKeepWellFormed(cs, id, 0, hash, true);
        ChangeClientKeepsInv(cfg, s, Clients.Rotate(cs, id, hash), id, now, env);
      case InvalidateToken(id) =>
        Clients.RegistryOperationsKeepWellFormed(cs, id, 0, Zeros(32), true);
        ChangeClientKeepsInv(cfg, s, Clients.Invalidate(cs, id), id, now, env);
    }
  }

  lemma FileStepKeepsInv(cfg: Config, s: State, e: Event, now: int, env: Env)
    requires Inv(cfg, s) && Allowed(cfg, s, e, now, env)
    requires e.Export? || e.ImportImage? || e.Shutdown? || e.Restart?
    ensures Inv(cfg, Step(cfg, s, e, now, env).0)
  {
    var l, d := cfg.limits, s.disk;
    var y := Step(cfg, s, e, now, env).0.live;
    EmptyWellFormed(l);
    match e {
      case Export(_, _) =>
      case ImportImage(image) =>
        if image.Some? {
          ReplayKeepsWellFormed(l, EMPTY, ImageRecords(image.value), now);
        }
      case Shutdown =>
      case Restart =>
        DiskLogIsGood(l, d);
        ReplayKeepsWellFormed(l, EMPTY, Log(d), now);
        ReadableLogIsPrefix(d);
        SalvageKeepsWellFormed(l, EMPTY, ReadableLog(d), now);
    }
    CheckpointKeepsDiskOk(l, y, d, env, now);
  }

  lemma ReadableLogIsPrefix(d: Disk)
    ensures ReadableLog(d) <= Log(d)
  {
  }

  lemma StepKeepsInv(cfg: Config, s: State, e: Event, now: int, env: Env)
    requires Inv(cfg, s) && Allowed(cfg, s, e, now, env)
    ensures Inv(cfg, Step(cfg, s, e, now, env).0)
  {
    if e.PutEntry? {
      PutKeepsInv(cfg, s, e, now, env);
    } else if e.DeleteKey? || e.DeleteKeys? || e.DeleteAll? {
      DeleteKeepsInv(cfg, s, e, now, env);
    } else if e.RegisterClient? || e.RotateToken? || e.InvalidateToken? {
      ClientStepKeepsInv(cfg, s, e, now, env);
    } else if e.Export? || e.ImportImage? || e.Shutdown? || e.Restart? {
      FileStepKeepsInv(cfg, s, e, now, env);
    } else {
      ReadKeepsInv(cfg, s, e, now, env);
    }
  }

  /** A purge depends on its appends only, not on the checkpoint that may follow. */
  lemma {:induction false} PurgeIgnoresListing(p: Purge, keys: seq<Key>, i: nat, a: Env, b: Env)
    requires i <= |keys| && a.append == b.append
    ensures PurgeFrom(p, keys, i, a) == PurgeFrom(p, keys, i, b)
    decreases |keys| - i
  {
    if i < |keys| {
      if keys[i] !in p.table {
        PurgeIgnoresListing(p, keys, i + 1, a, b);
      } else {
        var d := if p.failed then p.disk else Append(p.disk, Remove(keys[i]), a.append(i));
        var q := Purge(p.table - {keys[i]}, d, p.failed || a.append(i) != Appended, p.purged + 1);
        PurgeIgnoresListing(q, keys, i + 1, a, b);
      }
    }
  }
}
