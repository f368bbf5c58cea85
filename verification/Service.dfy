/**
 The running service: the store, the registry, the budgets and the files updated in place. Every handler
 is proved to take exactly the machine's step, and serving a request exactly the dispatch function's; the
 invariant of the object carries the machine's invariant, the bytes that hold its disk and the claim about
 them, so that what is proved of runs holds of this code.
 */
module Service {
  import opened Bytes
  import opened CacheTable
  import opened Recovery
  import opened Machine
  import opened HashStore
  import opened Registry
  import opened Dispatch
  import Answers
  import Archive
  import Base64
  import Clients
  import Codec
  import Crypto
  import Decoding
  import Durability
  import Files
  import KeyList
  import Limiter
  import Packet
  import ReadBack
  import Storage

  lemma ListsOneMore(rest: seq<(Key, Entry)>, t: Table, k: Key)
    requires k in t && Lists(rest, t - {k})
    ensures Lists(rest + [(k, t[k])], t)
  {
    var all := rest + [(k, t[k])];
    forall j | j in t
      ensures exists i :: 0 <= i < |all| && all[i].0 == j
    {
      if j == k {
        assert all[|rest|].0 == j;
      } else {
        assert j in t - {k};
        var i :| 0 <= i < |rest| && rest[i].0 == j;
        assert all[i].0 == j;
      }
    }
  }

  /** Some enumeration of a table. */
  ghost function SomeListing(t: Table): (s: seq<(Key, Entry)>)
    ensures Lists(s, t)
    decreases |t|
  {
    if t == map[] then []
    else
      var k :| k in t;
      ListsOneMore(SomeListing(t - {k}), t, k);
      SomeListing(t - {k}) + [(k, t[k])]
  }

  /** How the file-system calls of one request end, and the nonces it draws. */
  datatype Outcomes = Outcomes(
    append: nat -> AppendOutcome,
    cut: nat -> nat,
    nonce: nat -> seq<byte>,
    checkpoint: CheckpointOutcome,
    checkpointNonce: seq<byte>)

  ghost predicate OutcomesOk(io: Outcomes) {
    (forall i :: |io.nonce(i)| == Packet.NONCE_SIZE) && |io.checkpointNonce| == Packet.NONCE_SIZE
  }

  /** What the network, the file system and the clock supply with one request. */
  datatype Call = Call(
    route: Route,
    verb: Method,
    token: Option<seq<byte>>,
    put: Option<(string, nat)>,
    registration: Option<(seq<byte>, nat)>,
    body: seq<byte>,
    file: Option<seq<byte>>,
    issued: seq<byte>,
    exportRoom: bool,
    exportWritten: bool,
    now: int,
    io: Outcomes)

  /** Request buffers, digest sizes, 32-bit roles, a 64-bit clock, and files a 64-bit bit counter can authenticate. */
  ghost predicate CallOk(c: Call) {
    && (c.route.Cache? && c.route.key.Some? ==> |c.route.key.value| < REQUEST_CAPACITY)
    && (c.put.Some? ==> |c.put.value.0| < REQUEST_CAPACITY)
    && (c.registration.Some? ==> c.registration.value.1 < TWO_32)
    && |c.body| < REQUEST_CAPACITY && |c.issued| == Clients.HASH_SIZE && IsInt64(c.now)
    && (c.file.Some? ==> |c.file.value| < Storage.FILE_LIMIT)
    && OutcomesOk(c.io)
  }

  function PutOf(put: Option<(string, nat)>): Option<(seq<byte>, nat)> {
    match put
    case None => None
    case Some(p) =>
      match Base64.Decode(p.0, Base64.PutCapacity(|p.0|))
      case None => None
      case Some(v) => Some((v, p.1))
  }

  function ContentOf(mac: Packet.Mac, max: nat, c: Call): Content {
    Content(PutOf(c.put), c.registration, KeyList.ParseKeys(c.body), Files.ReadExport(mac, max, c.file),
            c.issued, c.exportRoom, c.exportWritten)
  }

  /** The request as the dispatch function takes it. */
  function RequestOf(mac: Packet.Mac, max: nat, c: Call, sweepEnv: Env, env: Env): Request {
    Request(c.route, c.verb, c.token, ContentOf(mac, max, c), c.now, sweepEnv, env)
  }

  /** What the service receives is within the sizes the machine asks for. */
  lemma RequestsAreWellSized(mac: Packet.Mac, max: nat, c: Call, sweepEnv: Env, env: Env)
    requires CallOk(c)
    ensures WellSized(RequestOf(mac, max, c, sweepEnv, env))
  {
    hide Base64.Decode, KeyList.ParseKeys, Codec.ParseImage, Files.ReadPacketFile;
    if c.put.Some? {
      Base64.AcceptedExactly(c.put.value.0);
    }
    KeyList.ParsedKeysAreShorter(c.body);
    var r := Files.ReadPacketFile(mac, max, Files.EXPORT_MAGIC, c.file);
    if r.Payload? {
      Files.ParsedImageIsGood(r.bytes);
    }
  }

  /** The environment of a step: the outcomes of the calls, and an order in which a checkpoint lists the table. */
  ghost predicate Witness(env: Env, io: Outcomes, table: Table, now: int) {
    env.append == io.append && env.checkpoint == io.checkpoint && Lists(env.listing, Active(table, now))
  }

  ghost function SomeWitness(io: Outcomes, table: Table, now: int): (env: Env)
    ensures Witness(env, io, table, now)
  {
    Env(io.append, io.checkpoint, SomeListing(Active(table, now)))
  }

  /** Purging from here on gives `whole`. */
  ghost predicate PurgeAhead(whole: Purge, p: Purge, keys: seq<Key>, i: nat, env: Env) {
    i <= |keys| && whole == PurgeFrom(p, keys, i, env)
  }

  ghost function AfterKey(p: Purge, k: Key, outcome: AppendOutcome): Purge {
    if k !in p.table then p
    else
      var d := if p.failed then p.disk else Machine.Append(p.disk, Remove(k), outcome);
      Purge(p.table - {k}, d, p.failed || outcome != Appended, p.purged + 1)
  }

  lemma PurgeAheadStep(whole: Purge, p: Purge, keys: seq<Key>, i: nat, env: Env)
    requires i < |keys| && PurgeAhead(whole, p, keys, i, env)
    ensures PurgeAhead(whole, AfterKey(p, keys[i], env.append(i)), keys, i + 1, env)
  {
  }

  lemma PurgeEnds(whole: Purge, p: Purge, keys: seq<Key>, env: Env)
    requires PurgeAhead(whole, p, keys, |keys|, env)
    ensures whole == p
  {
  }

  lemma RefusedChangesNothing(cs: seq<Clients.Client>, id: seq<byte>, role: nat, hash: seq<byte>)
    ensures Clients.Register(cs, id, role, hash).0 != Clients.Ok ==> Clients.Register(cs, id, role, hash).1 == cs
    ensures Clients.Rotate(cs, id, hash).0 != Clients.Ok ==> Clients.Rotate(cs, id, hash).1 == cs
    ensures Clients.Invalidate(cs, id).0 != Clients.Ok ==> Clients.Invalidate(cs, id).1 == cs
  {
  }

  lemma PutOutOfBounds(cfg: Config, s: State, k: Key, v: seq<byte>, ttl: nat, now: int, env: Env)
    requires ttl < cfg.minTtl || ttl > cfg.maxTtl
    ensures Step(cfg, s, PutEntry(k, v, ttl), now, env) == (s.(clock := now), 400)
  {
  }

  /** The value of a response: the base64 text of what was found. */
  function TextOf(found: Option<Entry>): Option<string> {
    match found
    case None => None
    case Some(e) => Some(Base64.Encode(e.value))
  }

  method EncodeValue(v: seq<byte>) returns (text: string)
    ensures text == Base64.Encode(v)
  {
    Base64.EncodedLength(v);
    var out := new char[(|v| + 2) / 3 * 4 + 1];
    var length := Base64.EncodeInto(v, out);
    text := out[..length.value];
  }

  /** Right after a PUT, whether it was saved or not, the entry is there. */
  lemma PutStores(cfg: Config, s: State, k: Key, b: seq<byte>, ttl: nat, now: int, env: Env)
    requires Step(cfg, s, PutEntry(k, b, ttl), now, env).1 in {200, 500}
    ensures var table := Step(cfg, s, PutEntry(k, b, ttl), now, env).0.live.table;
            k in table && table[k] == Entry(b, now + ttl)
  {
  }

  /**
   A value put as base64 text comes back from a read as the same text, after any run that does not write,
   delete, purge or import over its key and whose starts load, as long as the value lives.
   */
  lemma PutThenGetReturnsTheText(cfg: Config, q: Durability.Quality, s: State, k: Key, b: seq<byte>, ttl: nat, now: int,
                                 env: Env, moves: seq<Durability.Move>, later: int)
    requires |b| < TWO_63 && Inv(cfg, s) && Durability.Holds(cfg.limits, q, s.disk, s.live, s.clock)
    requires Allowed(cfg, s, PutEntry(k, b, ttl), now, env)
    requires Step(cfg, s, PutEntry(k, b, ttl), now, env).1 in {200, 500}
    requires var s' := Step(cfg, s, PutEntry(k, b, ttl), now, env).0;
             var q' := Durability.NextQuality(cfg, q, s, PutEntry(k, b, ttl), now, env);
             && Durability.ValidRun(cfg, s', moves) && ReadBack.StartsLoad(cfg, q', s', moves)
             && ReadBack.AllSpare(cfg, s', moves, k) && Durability.Run(cfg, s', moves).clock <= later < now + ttl
    ensures PutOf(Some((Base64.Encode(b), ttl))) == Some((b, ttl))
    ensures var s' := Step(cfg, s, PutEntry(k, b, ttl), now, env).0;
            TextOf(CacheTable.Get(Durability.Run(cfg, s', moves).live.table, k, later).2) == Some(Base64.Encode(b))
  {
    hide Base64.Encode, Base64.Decode, Step, Inv, Durability.Holds, Durability.NextQuality, Durability.Run;
    Base64.RoundTrip(b);
    StepKeepsInv(cfg, s, PutEntry(k, b, ttl), now, env);
    Durability.StepKeepsQuality(cfg, q, s, PutEntry(k, b, ttl), now, env);
    PutStores(cfg, s, k, b, ttl, now, env);
    var s' := Step(cfg, s, PutEntry(k, b, ttl), now, env).0;
    var q' := Durability.NextQuality(cfg, q, s, PutEntry(k, b, ttl), now, env);
    ReadBack.SparedEntryIsReadBack(cfg, q', s', moves, k, later);
  }

  /** After a change to memory that is the machine's, what a checkpoint writes is in order. */
  lemma ChangedStateIsWellFormed(cfg: Config, s: State, e: Event, now: int, io: Outcomes, x: Live)
    requires Inv(cfg, s) && GoodEvent(e) && s.clock <= now <= LAST_CLOCK
    requires Step(cfg, s, e, now, SomeWitness(io, x.table, now)).0.live == x
    ensures WellFormed(cfg.limits, x) && TimesOk(x.table)
  {
    hide Step, SomeWitness;
    StepKeepsInv(cfg, s, e, now, SomeWitness(io, x.table, now));
  }

  lemma SweepKeepsTheActive(cfg: Config, s: State, now: int, env: Env)
    ensures Step(cfg, s, Sweep, now, env).0 ==
            Machine.State(Live(Active(s.live.table, now), s.live.clients), s.disk, now)
  {
  }

  lemma ShutdownCheckpoints(cfg: Config, q: Durability.Quality, s: State, now: int, env: Env)
    requires Inv(cfg, s) && Durability.Holds(cfg.limits, q, s.disk, s.live, s.clock)
    requires s.clock <= now <= LAST_CLOCK && Lists(env.listing, Active(s.live.table, now))
    ensures var s' := Machine.State(s.live, Machine.Checkpoint(s.live, s.disk, env).0, now);
            && Step(cfg, s, Machine.Shutdown, now, env).0 == s' && Inv(cfg, s')
            && var claim := Durability.NextQuality(cfg, q, s, Machine.Shutdown, now, env);
               Durability.Holds(cfg.limits, claim, s'.disk, s'.live, now)
  {
    hide Inv, Durability.Holds, Durability.NextQuality, Machine.Checkpoint;
    StepKeepsInv(cfg, s, Machine.Shutdown, now, env);
    Durability.StepKeepsQuality(cfg, q, s, Machine.Shutdown, now, env);
  }

  lemma ExpiryFits(cfg: Config, s: State, ttl: nat, now: int)
    requires Inv(cfg, s) && s.clock <= now <= LAST_CLOCK && ttl <= cfg.maxTtl
    ensures IsInt64(now + ttl)
  {
  }

  lemma StoreIsWithinLimits(store: Store)
    requires store.Valid()
    ensures WithinLimits(store.limits, store.Table())
  {
  }

  /** A configuration the service can run with: nothing wraps, and the hash can authenticate every packet. */
  ghost predicate Deployable(g: Settings, storageKey: seq<byte>) {
    && NeverWraps(g.machine.limits) && ConfigOk(g.machine) && g.machine.minTtl > 0
    && |storageKey| < Crypto.MESSAGE_LIMIT
    && Files.MaxPacket(g.machine.limits) < Storage.FILE_LIMIT - Packet.HEADER_SIZE
  }

  ghost function RestartWitness(cfg: Config, s: State, now: int): (env: Env)
    ensures Lists(env.listing, Active(Step(cfg, s, Restart, now, env).0.live.table, now))
  {
    var x := match Load(cfg.limits, s.disk, now)
             case Some(y) => y
             case None => Salvage(cfg.limits, EMPTY, ReadableLog(s.disk), now);
    Env(i => NothingWritten, Complete, SomeListing(Active(x.table, now)))
  }

  /** A start that loads is the machine's restart, and the claim carries over. */
  lemma LoadedStartKeepsClaim(cfg: Config, q: Durability.Quality, was: State, now: int, y: Live)
    requires Inv(cfg, was) && was.clock <= now <= LAST_CLOCK && Load(cfg.limits, was.disk, now) == Some(y)
    requires Durability.Holds(cfg.limits, q, was.disk, was.live, was.clock)
    ensures var env := RestartWitness(cfg, was, now);
            && Step(cfg, was, Restart, now, env).0 == Machine.State(y, was.disk, now)
            && Inv(cfg, Machine.State(y, was.disk, now))
            && Durability.Holds(cfg.limits, Durability.NextQuality(cfg, q, was, Restart, now, env), was.disk, y, now)
  {
    hide Inv, Load, Durability.Holds, Durability.NextQuality;
    var env := RestartWitness(cfg, was, now);
    StepKeepsInv(cfg, was, Restart, now, env);
    Durability.StepKeepsQuality(cfg, q, was, Restart, now, env);
  }

  /** What a failing start has in memory before it gives up; the files are still those of the earlier service. */
  ghost function Salvaged(cfg: Config, was: State, now: int): State {
    Machine.State(Salvage(cfg.limits, EMPTY, ReadableLog(was.disk), now), was.disk, now)
  }

  lemma ClockIsNotNegative(cfg: Config, s: State)
    requires Inv(cfg, s)
    ensures s.clock >= 0
  {
  }

  lemma SalvagedIsWellFormed(cfg: Config, was: State, now: int)
    requires Inv(cfg, was) && was.clock <= now <= LAST_CLOCK && Load(cfg.limits, was.disk, now) == None
    ensures WellFormed(cfg.limits, Salvaged(cfg, was, now).live) && TimesOk(Salvaged(cfg, was, now).live.table)
  {
    hide Salvage, ReadableLog, Load, Machine.Checkpoint;
    StepKeepsInv(cfg, was, Restart, now, RestartWitness(cfg, was, now));
  }

  lemma FailedStartCheckpoints(cfg: Config, q: Durability.Quality, was: State, now: int, env: Env)
    requires Inv(cfg, was) && was.clock <= now <= LAST_CLOCK && Load(cfg.limits, was.disk, now) == None
    requires Durability.Holds(cfg.limits, q, was.disk, was.live, was.clock)
    requires Lists(env.listing, Active(Salvaged(cfg, was, now).live.table, now))
    ensures var y := Salvaged(cfg, was, now).live;
            var s' := Machine.State(y, Machine.Checkpoint(y, was.disk, env).0, now);
            && Step(cfg, was, Restart, now, env).0 == s' && Inv(cfg, s')
            && var claim := Durability.NextQuality(cfg, q, was, Restart, now, env);
               Durability.Holds(cfg.limits, claim, s'.disk, s'.live, now)
  {
    hide Inv, Durability.Holds, Durability.NextQuality, Machine.Checkpoint, Load, Salvage, ReadableLog;
    StepKeepsInv(cfg, was, Restart, now, env);
    Durability.StepKeepsQuality(cfg, q, was, Restart, now, env);
  }

  class Service {
    const settings: Settings
    const store: Store
    const registry: Registry
    const limiter: Limiter.Table
    const archive: Archive.Archive
    var lastSweep: int
    ghost var clock: int
    ghost var claim: Durability.Quality

    /** The parts are valid and configured alike. */
    ghost predicate Parts()
      reads this, store, store.buckets, store.nodes, registry, registry.records, limiter, limiter.entries, archive
    {
      && store.Valid() && registry.Valid() && limiter.Valid() && archive.Valid()
      && store.limits == settings.machine.limits == archive.limits && settings.machine.minTtl > 0
      && registry.bootstrapHash == settings.bootstrapHash && limiter.budget == settings.budget
    }

    ghost function State(): State
      requires Parts()
      reads this, store, store.buckets, store.nodes, registry, registry.records, limiter, limiter.entries, archive
    {
      Machine.State(Storage.Contents(store, registry), archive.disk, clock)
    }

    ghost function Server(): Server
      requires Parts()
      reads this, store, store.buckets, store.nodes, registry, registry.records, limiter, limiter.entries, archive
    {
      Dispatch.Server(State(), limiter.Windows(), lastSweep)
    }

    /** Between requests: the machine's invariant, files that hold its disk, and a true claim about them. */
    ghost predicate Valid()
      reads this, store, store.buckets, store.nodes, registry, registry.records, limiter, limiter.entries, archive
    {
      && Parts() && Inv(settings.machine, State())
      && Durability.Holds(settings.machine.limits, claim, archive.disk, State().live, clock)
    }

    /** A step may be taken now. */
    ghost predicate Ready(e: Event, now: int, io: Outcomes)
      reads this, store, store.buckets, store.nodes, registry, registry.records, limiter, limiter.entries, archive
    {
      && Parts() && Inv(settings.machine, State()) && GoodEvent(e)
      && clock <= now <= LAST_CLOCK && IsInt64(now) && OutcomesOk(io)
    }

    ghost function Max(): nat {
      Files.MaxPacket(settings.machine.limits)
    }

    /** An empty service over the files it finds. */
    constructor (settings: Settings, storageKey: seq<byte>, bucketCount: nat, hash: Key -> nat, files: Files.Files,
          now: int, ghost disk: Disk, ghost trace: Files.Trace)
      requires bucketCount > 0 && Deployable(settings, storageKey)
      requires Files.Stored(Crypto.HmacWith(storageKey), settings.machine.limits, files, disk, trace)
      ensures Parts() && Server() == Dispatch.Server(Machine.State(EMPTY, disk, now), [], now)
      ensures this.settings == settings && archive.files == files && archive.trace == trace
      ensures archive.storageKey == storageKey
      ensures fresh(store) && fresh(store.buckets) && store.nodes == {} && fresh(registry) && fresh(registry.records)
      ensures fresh(limiter) && fresh(limiter.entries) && fresh(archive)
    {
      hide Store.Valid, Registry.Valid, Limiter.Table.Valid, Files.Stored, Crypto.HmacWith;
      this.settings := settings;
      store := new Store(settings.machine.limits, bucketCount, hash);
      registry := new Registry(settings.bootstrapHash);
      limiter := new Limiter.Table(settings.budget);
      archive := new Archive.Archive(settings.machine.limits, storageKey, files, disk, trace);
      lastSweep, clock, claim := now, now, Durability.Lost;
    }

    /**
     Start on the files an earlier service left in the state `was`, with the claim `q` about them. The start
     succeeds exactly when the files load; the service is then valid, holds what the machine's restart gives,
     and its claim is the one that follows from `q`. A start that fails leaves in memory what the machine
     salvages, for `GiveUp` to write. Bytes across a tear that happen to be a packet are set apart.
     */
    static method Start(settings: Settings, storageKey: seq<byte>, bucketCount: nat, hash: Key -> nat,
          files: Files.Files, now: int, ghost was: State, ghost q: Durability.Quality, ghost trace: Files.Trace)
        returns (ok: bool, service: Service, ghost env: Env)
      requires bucketCount > 0 && Deployable(settings, storageKey)
      requires Files.Stored(Crypto.HmacWith(storageKey), settings.machine.limits, files, was.disk, trace)
      requires Inv(settings.machine, was) && was.clock <= now <= LAST_CLOCK
      requires Durability.Holds(settings.machine.limits, q, was.disk, was.live, was.clock)
      requires files.checkpoint.Some? ==> |files.checkpoint.value| < Storage.FILE_LIMIT
      requires files.journal.Some? ==> |files.journal.value| < Storage.FILE_LIMIT
      ensures fresh(service) && service.settings == settings && service.archive.files == files
      ensures fresh(service.store) && fresh(service.store.buckets) && fresh(service.store.nodes)
      ensures fresh(service.archive)
      ensures fresh(service.registry) && fresh(service.registry.records)
      ensures fresh(service.limiter) && fresh(service.limiter.entries)
      ensures ok <==> Files.LoadFiles(service.archive.mac, service.Max(), settings.machine.limits, files, now).Some?
      ensures (was.disk.tear.Some? ==> !Files.Straddles(service.archive.mac, settings.machine.limits, trace.tail)) ==>
                && (ok <==> Load(settings.machine.limits, was.disk, now).Some?)
                && (ok ==> && service.Valid() && service.limiter.Windows() == [] && service.lastSweep == now
                           && service.State() == Step(settings.machine, was, Restart, now, env).0
                           && service.claim == Durability.NextQuality(settings.machine, q, was, Restart, now, env))
                && (!ok ==> service.Parts() && service.State() == Salvaged(settings.machine, was, now))
    {
      hide Files.Stored, Files.LoadFiles, Durability.Holds, Durability.NextQuality, Step, Load, Inv, Crypto.HmacWith,
           SomeListing, Store.Valid, Registry.Valid, Limiter.Table.Valid, Decoding.PayloadsDecode, Decoding.LeftBehind,
           Salvage, ReadableLog, Files.Straddles;
      service := new Service(settings, storageKey, bucketCount, hash, files, now, was.disk, trace);
      ok := Storage.LoadState(service.store, service.registry, storageKey, Files.MaxPacket(settings.machine.limits),
                              files, now, service.archive.mac);
      env := RestartWitness(settings.machine, was, now);
      if was.disk.tear.Some? ==> !Files.Straddles(service.archive.mac, settings.machine.limits, trace.tail) {
        Files.LoadingFilesIsLoadingTheDisk(service.archive.mac, settings.machine.limits, files, was.disk, trace, now);
        ClockIsNotNegative(settings.machine, was);
        Decoding.LeftBehindIsSalvage(service.archive.mac, settings.machine.limits, files, was.disk, trace, now);
        if ok {
          LoadedStartKeepsClaim(settings.machine, q, was, now, Storage.Contents(service.store, service.registry));
          service.claim := Durability.NextQuality(settings.machine, q, was, Restart, now, env);
        }
      }
    }

    // -------------------------------------------------------------- saving

    /** Checkpoint the present state. */
    method Checkpoint(now: int, io: Outcomes) returns (ok: bool, ghost env: Env)
      requires Parts() && OutcomesOk(io) && IsInt64(now)
      requires WellFormed(settings.machine.limits, State().live) && TimesOk(store.Table())
      modifies archive
      ensures Parts() && Witness(env, io, store.Table(), now)
      ensures (archive.disk, ok) == Machine.Checkpoint(State().live, old(archive.disk), env)
    {
      hide store.Valid, registry.Valid, limiter.Valid, archive.Valid, Machine.Checkpoint, WellFormed;
      ok, env := archive.Checkpoint(store, registry, now, io.checkpointNonce, io.append, io.checkpoint);
    }

    /** Append the record, or write a checkpoint when that fails. */
    method Save(r: Record, now: int, io: Outcomes) returns (ok: bool, ghost env: Env)
      requires Parts() && OutcomesOk(io) && IsInt64(now) && JournalRecordOk(settings.machine.limits, r)
      requires WellFormed(settings.machine.limits, State().live) && TimesOk(store.Table())
      modifies archive
      ensures Parts() && Witness(env, io, store.Table(), now)
      ensures (archive.disk, ok) == Machine.Save(State().live, old(archive.disk), r, env)
    {
      hide store.Valid, registry.Valid, limiter.Valid, archive.Valid, Machine.Checkpoint, WellFormed, SomeListing;
      ok := archive.Append(r, now, io.nonce(0), io.append(0), io.cut(0));
      if ok {
        env := SomeWitness(io, store.Table(), now);
      } else {
        ok, env := Checkpoint(now, io);
      }
    }

    // -------------------------------------------------------------- cache handlers

    method HandleGet(k: Key, now: int, io: Outcomes) returns (status: nat, text: Option<string>, ghost env: Env)
      requires Ready(Get(k), now, io)
      modifies this, archive, store, store.buckets, store.nodes
      ensures Parts() && store.nodes == old(store.nodes) && lastSweep == old(lastSweep)
      ensures Witness(env, io, store.Table(), now)
      ensures (State(), status) == Step(settings.machine, old(State()), Get(k), now, env)
      ensures status == if k in Active(old(store.Table()), now) then 200 else 404
      ensures text == TextOf(CacheTable.Get(old(store.Table()), k, now).2)
    {
      hide store.Valid, registry.Valid, limiter.Valid, archive.Valid, Machine.Save, Machine.Checkpoint, Replay,
           PurgeFrom, ChangeClient, Load, Salvage, SomeListing, Inv;
      var r, found := store.Get(k, now);
      status, text := 404, None;
      if r == CacheTable.Ok {
        status := 200;
        var encoded := EncodeValue(found.value.value);
        text := Some(encoded);
      }
      clock := now;
      env := SomeWitness(io, store.Table(), now);
    }

    /** A value that has been decoded, with a time to live within bounds. */
    method PutValue(k: Key, v: seq<byte>, ttl: nat, now: int, io: Outcomes) returns (status: nat, ghost env: Env)
      requires Ready(PutEntry(k, v, ttl), now, io) && settings.machine.minTtl <= ttl <= settings.machine.maxTtl
      modifies this, archive, store, store.buckets, store.nodes
      ensures Parts() && old(store.nodes) <= store.nodes && fresh(store.nodes - old(store.nodes))
              && lastSweep == old(lastSweep) && Witness(env, io, store.Table(), now)
      ensures (State(), status) == Step(settings.machine, old(State()), PutEntry(k, v, ttl), now, env)
      ensures status == 413 || status == if io.append(0) == Appended || io.checkpoint == Complete then 200 else 500
    {
      hide store.Valid, registry.Valid, limiter.Valid, archive.Valid, Machine.Save, Machine.Checkpoint, Replay,
           PurgeFrom, ChangeClient, Load, Salvage, SomeListing, Inv;
      ghost var s := State();
      clock := now;
      var r := store.Set(k, v, ttl, now);
      if r == CacheTable.LimitExceeded {
        env := SomeWitness(io, store.Table(), now);
        return 413, env;
      }
      ChangedStateIsWellFormed(settings.machine, s, PutEntry(k, v, ttl), now, io, State().live);
      ExpiryFits(settings.machine, s, ttl, now);
      SetIsJournalable(settings.machine.limits, s.live.table, k, v, now + ttl);
      var saved;
      saved, env := Save(Set(k, v, now + ttl), now, io);
      status := if saved then 200 else 500;
      Answers.PutAnswers(settings.machine, s, k, v, ttl, now, env);
    }

    method HandlePut(k: Key, text: string, ttl: nat, now: int, io: Outcomes) returns (status: nat, ghost env: Env)
      requires Ready(Get(k), now, io) && |k| < REQUEST_CAPACITY && |text| < REQUEST_CAPACITY
      modifies this, archive, store, store.buckets, store.nodes
      ensures Parts() && old(store.nodes) <= store.nodes && fresh(store.nodes - old(store.nodes))
      ensures lastSweep == old(lastSweep)
      ensures Witness(env, io, store.Table(), now)
      ensures match Base64.Decode(text, Base64.PutCapacity(|text|))
              case None => status == 400 && State() == old(State())
              case Some(v) => (State(), status) == Step(settings.machine, old(State()), PutEntry(k, v, ttl), now, env)
      ensures status == 200 ==> io.append(0) == Appended || io.checkpoint == Complete
      ensures status == 500 ==> io.append(0) != Appended && io.checkpoint != Complete
    {
      hide store.Valid, registry.Valid, limiter.Valid, archive.Valid, Base64.Decode, Step, SomeListing, Inv;
      ghost var value := Base64.Decode(text, Base64.PutCapacity(|text|));
      Base64.AcceptedExactly(text);
      env := SomeWitness(io, store.Table(), now);
      if ttl < settings.machine.minTtl || ttl > settings.machine.maxTtl {
        if value.Some? {
          PutOutOfBounds(settings.machine, State(), k, value.value, ttl, now, env);
          clock := now;
        }
        return 400, env;
      }
      var bytes := new byte[Base64.PutCapacity(|text|)];
      Base64.ThreeBytesPerGroupSuffice(text, 0, bytes.Length);
      var length := Base64.DecodeInto(text, bytes);
      if length == None {
        return 400, env;
      }
      status, env := PutValue(k, bytes[..length.value], ttl, now, io);
    }

    method HandleDelete(k: Key, now: int, io: Outcomes) returns (status: nat, ghost env: Env)
      requires Ready(DeleteKey(k), now, io)
      modifies this, archive, store, store.buckets, store.nodes
      ensures Parts() && store.nodes == old(store.nodes) && lastSweep == old(lastSweep)
      ensures Witness(env, io, store.Table(), now)
      ensures (State(), status) == Step(settings.machine, old(State()), DeleteKey(k), now, env)
    {
      hide store.Valid, registry.Valid, limiter.Valid, archive.Valid, Machine.Save, Machine.Checkpoint, Replay,
           PurgeFrom, ChangeClient, Load, Salvage, SomeListing, Inv;
      ghost var s := State();
      StoreIsWithinLimits(store);
      var r := store.Delete(k);
      clock := now;
      if r == CacheTable.NotFound {
        env := SomeWitness(io, store.Table(), now);
        return 404, env;
      }
      ChangedStateIsWellFormed(settings.machine, s, DeleteKey(k), now, io, State().live);
      KeyIsJournalable(settings.machine.limits, s.live.table, k);
      var saved;
      saved, env := Save(Remove(k), now, io);
      status := if saved then 200 else 500;
    }

    method HandlePurgeAll(now: int, io: Outcomes) returns (status: nat, ghost env: Env)
      requires Ready(DeleteAll, now, io)
      modifies this, archive, store, store.buckets, store.nodes
      ensures Parts() && store.nodes == old(store.nodes) && lastSweep == old(lastSweep)
      ensures Witness(env, io, store.Table(), now)
      ensures (State(), status) == Step(settings.machine, old(State()), DeleteAll, now, env)
    {
      hide store.Valid, registry.Valid, limiter.Valid, archive.Valid, Machine.Save, Machine.Checkpoint, Replay,
           PurgeFrom, ChangeClient, Load, Salvage, SomeListing, Inv;
      ghost var s := State();
      store.Clear();
      clock := now;
      ChangedStateIsWellFormed(settings.machine, s, DeleteAll, now, io, State().live);
      var saved;
      saved, env := Save(Record.PurgeAll, now, io);
      status := if saved then 200 else 500;
    }

    /** Delete one listed key, and append its record unless an append has failed before. */
    method PurgeKey(k: Key, failed: bool, now: int, io: Outcomes, i: nat) returns (found: bool, failing: bool)
      requires Parts() && OutcomesOk(io) && IsInt64(now) && |k| < REQUEST_CAPACITY
      modifies this, archive, store, store.buckets, store.nodes
      ensures Parts() && store.nodes == old(store.nodes) && lastSweep == old(lastSweep) && clock == old(clock)
      ensures found == (k in old(store.Table()))
      ensures forall n: nat {:trigger Purge(old(store.Table()), old(archive.disk), failed, n)} ::
                AfterKey(Purge(old(store.Table()), old(archive.disk), failed, n), k, io.append(i)) ==
                Purge(store.Table(), archive.disk, failing, if found then n + 1 else n)
    {
      hide store.Valid, registry.Valid, limiter.Valid, archive.Valid;
      StoreIsWithinLimits(store);
      ghost var before := store.Table();
      var r := store.Delete(k);
      found, failing := r != CacheTable.NotFound, failed;
      if found && !failed {
        KeyIsJournalable(settings.machine.limits, before, k);
        var ok := archive.Append(Remove(k), now, io.nonce(i), io.append(i), io.cut(i));
        failing := !ok;
      }
    }

    /** Purge the keys a request lists, once they have been read and checked. */
    method HandlePurgeKeys(keys: seq<Key>, now: int, io: Outcomes)
        returns (status: nat, purged: nat, missing: nat, ghost env: Env)
      requires Ready(DeleteKeys(keys), now, io)
      modifies this, archive, store, store.buckets, store.nodes
      ensures Parts() && store.nodes == old(store.nodes) && lastSweep == old(lastSweep)
      ensures Witness(env, io, store.Table(), now)
      ensures (State(), status) == Step(settings.machine, old(State()), DeleteKeys(keys), now, env)
      ensures purged == PurgeFrom(Purge(old(store.Table()), old(archive.disk), false, 0), keys, 0, env).purged
      ensures purged + missing == |keys|
    {
      hide store.Valid, registry.Valid, limiter.Valid, archive.Valid, Machine.Save, Machine.Checkpoint, Replay,
           PurgeFrom, ChangeClient, Load, Salvage, SomeListing, Inv, AfterKey;
      ghost var s := State();
      ghost var e := Env(io.append, io.checkpoint, []);
      ghost var start := Purge(store.Table(), archive.disk, false, 0);
      ghost var whole := PurgeFrom(start, keys, 0, e);
      var failed := false;
      purged, missing := 0, 0;
      for i := 0 to |keys|
        invariant Parts() && store.nodes == old(store.nodes) && lastSweep == old(lastSweep) && clock == old(clock)
        invariant registry.Records() == s.live.clients
        invariant PurgeAhead(whole, Purge(store.Table(), archive.disk, failed, purged), keys, i, e)
        invariant purged + missing == i
      {
        PurgeAheadStep(whole, Purge(store.Table(), archive.disk, failed, purged), keys, i, e);
        var found;
        found, failed := PurgeKey(keys[i], failed, now, io, i);
        if found {
          purged := purged + 1;
        } else {
          missing := missing + 1;
        }
      }
      PurgeEnds(whole, Purge(store.Table(), archive.disk, failed, purged), keys, e);
      clock := now;
      env := SomeWitness(io, store.Table(), now);
      PurgeIgnoresListing(start, keys, 0, e, env);
      var saved := true;
      if failed {
        ChangedStateIsWellFormed(settings.machine, s, DeleteKeys(keys), now, io, State().live);
        saved, env := Checkpoint(now, io);
        PurgeIgnoresListing(start, keys, 0, e, env);
      }
      status := if saved then 200 else 500;
    }

    // -------------------------------------------------------------- client handlers

    /** Answer a registry operation: save the record it changed, or say why it was refused. */
    method AnswerClient(r: Clients.Status, id: seq<byte>, now: int, io: Outcomes) returns (status: nat, ghost env: Env)
      requires Parts() && OutcomesOk(io) && IsInt64(now)
      requires WellFormed(settings.machine.limits, State().live) && TimesOk(store.Table())
      modifies archive
      ensures Parts() && Witness(env, io, store.Table(), now)
      ensures r == Clients.Ok ==>
                match Clients.Lookup(registry.Records(), id)
                case None => archive.disk == old(archive.disk) && status == 500
                case Some(c) =>
                  var saved := Machine.Save(State().live, old(archive.disk), Upsert(c), env);
                  (archive.disk, status) == (saved.0, Answer(saved.1))
      ensures r != Clients.Ok ==>
                && archive.disk == old(archive.disk)
                && status == if r == Clients.NotFound then 404 else if r == Clients.Conflict then 409 else 400
    {
      hide store.Valid, limiter.Valid, archive.Valid, Machine.Save, SomeListing;
      env := SomeWitness(io, store.Table(), now);
      if r == Clients.NotFound {
        return 404, env;
      }
      if r == Clients.Conflict {
        return 409, env;
      }
      if r != Clients.Ok {
        return 400, env;
      }
      var i := registry.FindRecord(id);
      if i == registry.count {
        return 500, env;
      }
      assert registry.records[i] == registry.Records()[i];
      var saved;
      saved, env := Save(Upsert(registry.records[i]), now, io);
      status := if saved then 200 else 500;
    }

    method HandleRegister(id: seq<byte>, role: nat, hash: seq<byte>, now: int, io: Outcomes)
        returns (status: nat, ghost env: Env)
      requires Ready(RegisterClient(id, role, hash), now, io)
      modifies this, archive, registry, registry.records
      ensures Parts() && (registry.records == old(registry.records) || fresh(registry.records))
              && lastSweep == old(lastSweep) && Witness(env, io, store.Table(), now)
      ensures (State(), status) == Step(settings.machine, old(State()), RegisterClient(id, role, hash), now, env)
    {
      hide store.Valid, registry.Valid, limiter.Valid, archive.Valid, Machine.Save, Replay, PurgeFrom, Load, Salvage,
           SomeListing, Clients.Register, Clients.Rotate, Clients.Invalidate, Clients.IndexOf;
      ghost var s := State();
      clock := now;
      RefusedChangesNothing(registry.Records(), id, role, hash);
      var r := registry.Register(id, role, hash);
      ChangedStateIsWellFormed(settings.machine, s, RegisterClient(id, role, hash), now, io, State().live);
      status, env := AnswerClient(r, id, now, io);
    }

    method HandleRotate(id: seq<byte>, hash: seq<byte>, now: int, io: Outcomes) returns (status: nat, ghost env: Env)
      requires Ready(RotateToken(id, hash), now, io)
      modifies this, archive, registry, registry.records
      ensures Parts() && (registry.records == old(registry.records) || fresh(registry.records))
              && lastSweep == old(lastSweep) && Witness(env, io, store.Table(), now)
      ensures (State(), status) == Step(settings.machine, old(State()), RotateToken(id, hash), now, env)
    {
      hide store.Valid, registry.Valid, limiter.Valid, archive.Valid, Machine.Save, Replay, PurgeFrom, Load, Salvage,
           SomeListing, Clients.Register, Clients.Rotate, Clients.Invalidate, Clients.IndexOf;
      ghost var s := State();
      clock := now;
      RefusedChangesNothing(registry.Records(), id, 0, hash);
      var r := registry.Rotate(id, hash);
      ChangedStateIsWellFormed(settings.machine, s, RotateToken(id, hash), now, io, State().live);
      status, env := AnswerClient(r, id, now, io);
    }

    method HandleInvalidate(id: seq<byte>, now: int, io: Outcomes) returns (status: nat, ghost env: Env)
      requires Ready(InvalidateToken(id), now, io)
      modifies this, archive, registry, registry.records
      ensures Parts() && (registry.records == old(registry.records) || fresh(registry.records))
              && lastSweep == old(lastSweep) && Witness(env, io, store.Table(), now)
      ensures (State(), status) == Step(settings.machine, old(State()), InvalidateToken(id), now, env)
    {
      hide store.Valid, registry.Valid, limiter.Valid, archive.Valid, Machine.Save, Replay, PurgeFrom, Load, Salvage,
           SomeListing, Clients.Register, Clients.Rotate, Clients.Invalidate, Clients.IndexOf;
      ghost var s := State();
      clock := now;
      RefusedChangesNothing(registry.Records(), id, 0, []);
      var r := registry.Invalidate(id);
      ChangedStateIsWellFormed(settings.machine, s, InvalidateToken(id), now, io, State().live);
      status, env := AnswerClient(r, id, now, io);
    }

    // -------------------------------------------------------------- state handlers

    method HandleExport(hasRoom: bool, written: bool, now: int, io: Outcomes) returns (status: nat, ghost env: Env)
      requires Ready(Export(hasRoom, written), now, io)
      modifies this, archive
      ensures Parts() && lastSweep == old(lastSweep) && Witness(env, io, store.Table(), now)
      ensures (State(), status) == Step(settings.machine, old(State()), Export(hasRoom, written), now, env)
    {
      hide store.Valid, registry.Valid, limiter.Valid, archive.Valid, Machine.Save, Machine.Checkpoint, Replay,
           PurgeFrom, ChangeClient, Load, Salvage, SomeListing;
      clock := now;
      if !hasRoom {
        env := SomeWitness(io, store.Table(), now);
        return 500, env;
      }
      var saved;
      saved, env := Checkpoint(now, io);
      status := if saved && written then 200 else 500;
    }

    method HandleImport(file: Option<seq<byte>>, now: int, io: Outcomes) returns (status: nat, ghost env: Env)
      requires Ready(ImportImage(Files.ReadExport(archive.mac, Max(), file)), now, io)
      requires file.Some? ==> |file.value| < Storage.FILE_LIMIT
      modifies this, archive, store, store.buckets, store.nodes, registry, registry.records
      ensures Parts() && old(store.nodes) <= store.nodes && fresh(store.nodes - old(store.nodes))
      ensures lastSweep == old(lastSweep)
      ensures (registry.records == old(registry.records) || fresh(registry.records))
      ensures Witness(env, io, store.Table(), now)
      ensures (State(), status) == Step(settings.machine, old(State()),
              ImportImage(Files.ReadExport(archive.mac, Max(), file)), now, env)
    {
      hide store.Valid, registry.Valid, limiter.Valid, Files.Stored, Machine.Save, Machine.Checkpoint, Replay,
           PurgeFrom, ChangeClient, Load, Salvage, SomeListing, Inv, Files.ReadPacketFile, Codec.ParseImage,
           Crypto.HmacWith;
      ghost var s, image := State(), Files.ReadExport(archive.mac, Max(), file);
      clock := now;
      var ok := Storage.ImportState(store, registry, archive.storageKey, Files.MaxPacket(settings.machine.limits),
                                    file, now, archive.mac);
      env := SomeWitness(io, store.Table(), now);
      if !ok {
        return 400, env;
      }
      ChangedStateIsWellFormed(settings.machine, s, ImportImage(image), now, io, State().live);
      var saved;
      saved, env := Checkpoint(now, io);
      status := if saved then 200 else 400;
    }

    /** The final checkpoint of a service that stops. */
    method Shutdown(now: int, io: Outcomes) returns (ghost env: Env)
      requires Valid() && Ready(Machine.Shutdown, now, io)
      modifies this, archive
      ensures Valid() && Witness(env, io, store.Table(), now)
      ensures State() == Step(settings.machine, old(State()), Machine.Shutdown, now, env).0
      ensures claim == Durability.NextQuality(settings.machine, old(claim), old(State()), Machine.Shutdown, now, env)
    {
      hide store.Valid, registry.Valid, limiter.Valid, archive.Valid, Step, Machine.Checkpoint, SomeListing,
           Durability.Holds, Durability.NextQuality, WellFormed;
      ghost var s, q := State(), claim;
      clock := now;
      var saved;
      saved, env := Checkpoint(now, io);
      ShutdownCheckpoints(settings.machine, q, s, now, env);
      claim := Durability.NextQuality(settings.machine, q, s, Machine.Shutdown, now, env);
    }

    /**
     The cleanup of a start that failed: it checkpoints what was loaded. Together with the start this is the
     machine's restart, and the claim about the files is the one that follows from the earlier service's.
     */
    method GiveUp(now: int, io: Outcomes, ghost was: State, ghost q: Durability.Quality) returns (ghost env: Env)
      requires Parts() && OutcomesOk(io) && Inv(settings.machine, was) && was.clock <= now <= LAST_CLOCK
      requires Durability.Holds(settings.machine.limits, q, was.disk, was.live, was.clock)
      requires Load(settings.machine.limits, was.disk, now) == None && State() == Salvaged(settings.machine, was, now)
      modifies this, archive
      ensures Valid() && Witness(env, io, store.Table(), now)
      ensures State() == Step(settings.machine, was, Restart, now, env).0
      ensures claim == Durability.NextQuality(settings.machine, q, was, Restart, now, env)
    {
      hide store.Valid, registry.Valid, limiter.Valid, archive.Valid, Step, Machine.Checkpoint, SomeListing, Inv, Load,
           Durability.Holds, Durability.NextQuality, WellFormed, TimesOk, Salvage, ReadableLog;
      ClockIsNotNegative(settings.machine, was);
      SalvagedIsWellFormed(settings.machine, was, now);
      var saved;
      saved, env := Checkpoint(now, io);
      FailedStartCheckpoints(settings.machine, q, was, now, env);
      claim := Durability.NextQuality(settings.machine, q, was, Restart, now, env);
    }

    // -------------------------------------------------------------- serving a request

    method MaybeSweep(now: int, io: Outcomes) returns (ghost env: Env)
      requires Parts()
      modifies this, store, store.buckets, store.nodes
      ensures Parts() && store.nodes == old(store.nodes) && Lists(env.listing, Active(store.Table(), now))
              && claim == old(claim)
      ensures var sv := old(Server());
              Server() == if SweepDue(settings, sv, now)
                          then sv.(state := Step(settings.machine, sv.state, Sweep, now, env).0, lastSweep := now)
                          else sv
    {
      hide store.Valid, registry.Valid, limiter.Valid, archive.Valid, Step, SomeListing, Inv;
      if lastSweep == 0 || now - lastSweep >= settings.sweepInterval {
        var removed := store.PurgeExpired(now);
        lastSweep := now;
        clock := now;
      }
      env := SomeWitness(io, store.Table(), now);
      SweepKeepsTheActive(settings.machine, old(State()), now, env);
    }

    method Admit(token: Option<seq<byte>>, role: nat, now: int) returns (status: nat)
      requires Parts()
      modifies limiter, limiter.entries
      ensures Parts() && (limiter.entries == old(limiter.entries) || fresh(limiter.entries))
      ensures (Server(), status) == Admission(settings, old(Server()), token, role, now)
    {
      hide store.Valid, registry.Valid, limiter.Valid, archive.Valid, Clients.Authenticate, Limiter.Allow;
      if token == None {
        return 401;
      }
      var principal := registry.Authenticate(token.value);
      if principal == None {
        return 401;
      }
      if principal.value.role < role {
        return 403;
      }
      var allowed := limiter.Admit(principal.value.id, now);
      status := if allowed then 0 else 429;
    }

    method CheckKeys(keys: seq<Key>) returns (ok: bool)
      ensures ok <==> KeysUsable(settings.machine.limits, keys)
    {
      if |keys| == 0 {
        return false;
      }
      for i := 0 to |keys|
        invariant forall j :: 0 <= j < i ==> 0 < |keys[j]| <= settings.machine.limits.maxKey
      {
        if |keys[i]| == 0 || |keys[i]| > settings.machine.limits.maxKey {
          return false;
        }
      }
      ok := true;
    }

    /** A request may be handled now. */
    ghost predicate Open(c: Call)
      reads this, store, store.buckets, store.nodes, registry, registry.records, limiter, limiter.entries, archive
    {
      Parts() && Inv(settings.machine, State()) && CallOk(c) && clock <= c.now <= LAST_CLOCK
    }

    method HandleCache(k: Key, c: Call, ghost sweepEnv: Env) returns (status: nat, ghost env: Env)
      requires Open(c) && c.route == Cache(Some(k)) && c.verb in {GET, PUT, DELETE}
      modifies this, archive, store, store.buckets, store.nodes
      ensures Parts() && old(store.nodes) <= store.nodes && fresh(store.nodes - old(store.nodes))
      ensures lastSweep == old(lastSweep)
      ensures Witness(env, c.io, store.Table(), c.now)
      ensures (Server(), status) == Handle(settings, old(Server()), RequestOf(archive.mac, Max(), c, sweepEnv, env))
    {
      hide store.Valid, registry.Valid, limiter.Valid, archive.Valid, Step, Inv, Files.ReadExport, KeyList.ParseKeys,
           Base64.Decode, SomeListing;
      if c.verb == GET {
        var text;
        status, text, env := HandleGet(k, c.now, c.io);
      } else if c.verb == DELETE {
        status, env := HandleDelete(k, c.now, c.io);
      } else if c.put == None {
        env := SomeWitness(c.io, store.Table(), c.now);
        status := 400;
      } else {
        status, env := HandlePut(k, c.put.value.0, c.put.value.1, c.now, c.io);
      }
    }

    method HandleClients(c: Call, ghost sweepEnv: Env) returns (status: nat, ghost env: Env)
      requires Open(c) && (c.route.NewClient? || c.route.RotateClient? || c.route.InvalidateClient?)
      modifies this, archive, registry, registry.records
      ensures Parts() && (registry.records == old(registry.records) || fresh(registry.records))
      ensures lastSweep == old(lastSweep)
      ensures Witness(env, c.io, store.Table(), c.now)
      ensures (Server(), status) == Handle(settings, old(Server()), RequestOf(archive.mac, Max(), c, sweepEnv, env))
    {
      hide store.Valid, registry.Valid, limiter.Valid, archive.Valid, Step, Inv, Files.ReadExport, KeyList.ParseKeys,
           PutOf, SomeListing;
      if c.route.NewClient? && c.registration.Some? {
        status, env := HandleRegister(c.registration.value.0, c.registration.value.1, c.issued, c.now, c.io);
      } else if c.route.RotateClient? && 0 < |c.route.id| < Clients.ID_CAP {
        status, env := HandleRotate(c.route.id, c.issued, c.now, c.io);
      } else if c.route.InvalidateClient? && 0 < |c.route.id| < Clients.ID_CAP {
        status, env := HandleInvalidate(c.route.id, c.now, c.io);
      } else {
        env := SomeWitness(c.io, store.Table(), c.now);
        status := 400;
      }
    }

    method HandlePurgeListed(c: Call, ghost sweepEnv: Env) returns (status: nat, ghost env: Env)
      requires Open(c) && c.route.PurgeListed?
      modifies this, archive, store, store.buckets, store.nodes
      ensures Parts() && store.nodes == old(store.nodes) && lastSweep == old(lastSweep)
      ensures Witness(env, c.io, store.Table(), c.now)
      ensures (Server(), status) == Handle(settings, old(Server()), RequestOf(archive.mac, Max(), c, sweepEnv, env))
    {
      hide store.Valid, registry.Valid, limiter.Valid, archive.Valid, Step, Inv, Files.ReadExport, KeyList.ParseKeys,
           PutOf, SomeListing, KeysUsable, PurgeFrom;
      KeyList.ParsedKeysAreShorter(c.body);
      var keys := KeyList.ReadKeys(c.body);
      if keys != None {
        var usable := CheckKeys(keys.value);
        if usable {
          var purged, missing;
          status, purged, missing, env := HandlePurgeKeys(keys.value, c.now, c.io);
          return;
        }
      }
      env := SomeWitness(c.io, store.Table(), c.now);
      status := 400;
    }

    method HandleState(c: Call, ghost sweepEnv: Env) returns (status: nat, ghost env: Env)
      requires Open(c) && (c.route.ExportState? || c.route.ImportState? || c.route.PurgeAllKeys?)
      modifies this, archive, store, store.buckets, store.nodes, registry, registry.records
      ensures Parts() && old(store.nodes) <= store.nodes && fresh(store.nodes - old(store.nodes))
      ensures lastSweep == old(lastSweep)
      ensures (registry.records == old(registry.records) || fresh(registry.records))
      ensures Witness(env, c.io, store.Table(), c.now)
      ensures (Server(), status) == Handle(settings, old(Server()), RequestOf(archive.mac, Max(), c, sweepEnv, env))
    {
      hide store.Valid, registry.Valid, limiter.Valid, archive.Valid, Step, Inv, Files.ReadExport, KeyList.ParseKeys,
           PutOf, SomeListing, Crypto.HmacWith;
      if c.route.ExportState? {
        status, env := HandleExport(c.exportRoom, c.exportWritten, c.now, c.io);
      } else if c.route.ImportState? {
        RequestsAreWellSized(archive.mac, Max(), c, sweepEnv, sweepEnv);
        status, env := HandleImport(c.file, c.now, c.io);
      } else {
        status, env := HandlePurgeAll(c.now, c.io);
      }
    }

    method Perform(c: Call, ghost sweepEnv: Env) returns (status: nat, ghost env: Env)
      requires Open(c) && !c.route.Health? && !c.route.Root? && !c.route.Unknown? && c.route != Cache(None)
      requires c.route.Cache? ==> c.verb in {GET, PUT, DELETE}
      modifies this, archive, store, store.buckets, store.nodes, registry, registry.records
      ensures Parts() && old(store.nodes) <= store.nodes && fresh(store.nodes - old(store.nodes))
      ensures lastSweep == old(lastSweep)
      ensures (registry.records == old(registry.records) || fresh(registry.records))
      ensures Witness(env, c.io, store.Table(), c.now)
      ensures (Server(), status) == Handle(settings, old(Server()), RequestOf(archive.mac, Max(), c, sweepEnv, env))
    {
      hide store.Valid, registry.Valid, limiter.Valid, archive.Valid, RequestOf, EventOf, SomeListing, Step, Inv,
           CallOk;
      if c.route.Report? {
        RoutesAgree(archive.mac, Max(), c, sweepEnv);
        env := SomeWitness(c.io, store.Table(), c.now);
        status := 200;
      } else if c.route.Cache? {
        status, env := HandleCache(c.route.key.value, c, sweepEnv);
      } else if c.route.NewClient? || c.route.RotateClient? || c.route.InvalidateClient? {
        status, env := HandleClients(c, sweepEnv);
      } else if c.route.PurgeListed? {
        status, env := HandlePurgeListed(c, sweepEnv);
      } else {
        status, env := HandleState(c, sweepEnv);
      }
    }

    /** Token, role and budget, then the handler. */
    method ServeGuarded(c: Call, ghost sweepEnv: Env) returns (status: nat, ghost env: Env)
      requires Open(c) && !c.route.Health? && !c.route.Root? && !c.route.Unknown? && c.route != Cache(None)
      modifies this, archive, store, store.buckets, store.nodes, registry, registry.records, limiter, limiter.entries
      ensures Parts() && Witness(env, c.io, store.Table(), c.now)
      ensures (Server(), status) == Guarded(settings, old(Server()), RequestOf(archive.mac, Max(), c, sweepEnv, env))
    {
      hide store.Valid, registry.Valid, limiter.Valid, archive.Valid, RequestOf, Admission, Handle, SomeListing,
           RequiredRole, Inv, CallOk;
      RoutesAgree(archive.mac, Max(), c, sweepEnv);
      ghost var s := State();
      status := Admit(c.token, RequiredRole(c.route), c.now);
      AdmissionKeepsState(settings, old(Server()), c.token, RequiredRole(c.route), c.now);
      if status != 0 {
        env := SomeWitness(c.io, store.Table(), c.now);
      } else if c.route.Cache? && c.verb !in {GET, PUT, DELETE} {
        env := SomeWitness(c.io, store.Table(), c.now);
        status := 405;
      } else {
        status, env := Perform(c, sweepEnv);
      }
    }

    /** Serve, as far as the dispatch function is concerned. */
    method Route(c: Call) returns (status: nat, ghost r: Request)
      requires Open(c)
      modifies this, archive, store, store.buckets, store.nodes, registry, registry.records, limiter, limiter.entries
      ensures Parts() && r == RequestOf(archive.mac, Max(), c, r.sweepEnv, r.env)
      ensures Lists(r.sweepEnv.listing, Active(Dispatch.MaybeSweep(settings, old(Server()), r).state.live.table, c.now))
      ensures Witness(r.env, c.io, store.Table(), c.now)
      ensures (Server(), status) == Dispatch.Serve(settings, old(Server()), r)
    {
      hide store.Valid, registry.Valid, limiter.Valid, archive.Valid, RequestOf, Guarded, SomeListing, Step, Inv,
           CallOk, Allowed, GoodEvent;
      ghost var s := State();
      ghost var sweepEnv := MaybeSweep(c.now, c.io);
      SweptIsInv(settings.machine, s, State(), c.now, sweepEnv);
      RoutesAgree(archive.mac, Max(), c, sweepEnv);
      ghost var env := SomeWitness(c.io, store.Table(), c.now);
      if c.route.Unknown? {
        status := 404;
      } else if c.route == Cache(None) {
        status := 400;
      } else if c.route.Cache? {
        status, env := ServeGuarded(c, sweepEnv);
      } else if c.verb != RequiredMethod(c.route) {
        status := 405;
      } else if c.route.Health? || c.route.Root? {
        status := 200;
      } else {
        status, env := ServeGuarded(c, sweepEnv);
      }
      r := RequestOf(archive.mac, Max(), c, sweepEnv, env);
    }

    /**
     One request from arrival to answer. `r` is the request as the dispatch function sees it, with the
     outcomes the file system gave and the order in which checkpoints listed the store. The service is
     valid again afterwards: the machine's invariant holds, the files hold the machine's disk, and the
     claim about them is the one the moves of this request lead to.
     */
    method Serve(c: Call) returns (status: nat, ghost r: Request)
      requires Valid() && CallOk(c) && clock <= c.now <= LAST_CLOCK
      modifies this, archive, store, store.buckets, store.nodes, registry, registry.records, limiter, limiter.entries
      ensures Valid() && r == RequestOf(archive.mac, Max(), c, r.sweepEnv, r.env)
      ensures r.env.append == c.io.append && r.env.checkpoint == c.io.checkpoint
      ensures (Server(), status) == Dispatch.Serve(settings, old(Server()), r)
      ensures WellSized(r) && Timely(settings, old(Server()), r)
      ensures var moves := MovesOf(settings, old(Server()), r);
              claim == Durability.RunQuality(settings.machine, old(claim), old(State()), moves)
    {
      hide store.Valid, registry.Valid, limiter.Valid, archive.Valid, RequestOf, Dispatch.Serve, MovesOf, Step, Inv,
           CallOk, Durability.Holds, Durability.RunQuality, Durability.Run, Durability.ValidRun, WellSized;
      ghost var sv, q := Server(), claim;
      status, r := Route(c);
      RequestsAreWellSized(archive.mac, Max(), c, r.sweepEnv, r.env);
      RoutesAgree(archive.mac, Max(), c, r.sweepEnv);
      OneRequestIsAValidRun(settings, sv, r);
      ServingIsOneOrTwoMoves(settings, sv, r);
      Durability.RunKeepsQuality(settings.machine, q, sv.state, MovesOf(settings, sv, r));
      claim := Durability.RunQuality(settings.machine, q, sv.state, MovesOf(settings, sv, r));
    }
  }

  lemma RoutesAgree(mac: Packet.Mac, max: nat, c: Call, sweepEnv: Env)
    ensures forall env {:trigger RequestOf(mac, max, c, sweepEnv, env)} ::
              var r := RequestOf(mac, max, c, sweepEnv, env);
              r.route == c.route && r.verb == c.verb && r.token == c.token && r.now == c.now && r.sweepEnv == sweepEnv
                  && r.env == env
  {
  }

  lemma AdmissionKeepsState(g: Settings, sv: Dispatch.Server, token: Option<seq<byte>>, role: nat, now: int)
    ensures Admission(g, sv, token, role, now).0.state == sv.state
    ensures Admission(g, sv, token, role, now).0.lastSweep == sv.lastSweep
  {
  }

  lemma SweptIsInv(cfg: Config, s: State, swept: State, now: int, env: Env)
    requires Inv(cfg, s) && s.clock <= now <= LAST_CLOCK
    requires swept == s || swept == Step(cfg, s, Sweep, now, env).0
    ensures Inv(cfg, swept) && swept.clock <= now
  {
    if swept != s {
      ReadKeepsInv(cfg, s, Sweep, now, env);
    }
  }

  // ---------------------------------------------------------------- starting from files

  /** The first start: no files hold the empty disk, which loads as the empty state. */
  lemma FirstStart(g: Settings, storageKey: seq<byte>, now: int)
    requires Deployable(g, storageKey)
    ensures var stamp := Files.Stamp(Zeros(Packet.NONCE_SIZE), 0);
            Files.Stored(Crypto.HmacWith(storageKey), g.machine.limits, Files.Files(None, None), NO_FILES,
                Files.Trace(stamp, [], []))
    ensures Inv(g.machine, Durability.START) && Load(g.machine.limits, NO_FILES, now) == Some(EMPTY)
    ensures Durability.Holds(g.machine.limits, Durability.Exact, NO_FILES, EMPTY, 0)
  {
    Files.NoFilesAreStored(Crypto.HmacWith(storageKey), g.machine.limits, Files.Stamp(Zeros(Packet.NONCE_SIZE), 0));
    Durability.StartIsExact(g.machine);
  }

  /**
   Whenever the claim is `Exact`, the bytes in the files load, at any later time, to exactly the clients
   and the unexpired entries of the running service.
   */
  lemma FilesOfAServiceLoad(service: Service, t: int)
    requires service.Valid() && service.claim == Durability.Exact && t >= service.clock
    ensures Files.LoadFiles(service.archive.mac, service.Max(), service.settings.machine.limits,
                            service.archive.files, t)
         == Some(Durability.View(service.State().live, t))
  {
    hide Files.Stored, Accounted, Files.LoadFiles;
    Files.RestartFromFiles(service.archive.mac, service.settings.machine.limits, service.archive.files, service.State(),
                           service.archive.trace, t);
  }
}
