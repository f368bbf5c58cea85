/** A revoked token stays revoked through requests, failing writes, crashes and restarts. */
module Revocation {
  import opened Bytes
  import opened CacheTable
  import opened Recovery
  import opened Machine
  import opened Durability
  import opened CrashPoints
  import opened Interrupted
  import Clients

  predicate Inactive(c: Option<Clients.Client>) {
    c.Some? && !c.value.active
  }

  /** The record is inactive in memory and in whatever any load of the files would produce. */
  predicate Revoked(s: State, id: seq<byte>) {
    Inactive(Clients.Lookup(s.live.clients, id)) && Inactive(LastUpsert(Log(s.disk), id))
  }

  lemma {:induction false} LastUpsertConcat(a: seq<Record>, b: seq<Record>, id: seq<byte>)
    ensures LastUpsert(a + b, id) == if LastUpsert(b, id).Some? then LastUpsert(b, id) else LastUpsert(a, id)
  {
    if |b| == 0 {
      assert a + b == a;
    } else {
      LastUpsertConcat(a, b[..|b| - 1], id);
      assert (a + b)[..|a + b| - 1] == a + b[..|b| - 1];
    }
  }

  lemma {:induction false} LastUpsertOfClients(cs: seq<Clients.Client>, n: nat, id: seq<byte>)
    requires Clients.UniqueIds(cs) && n <= |cs|
    ensures LastUpsert(ClientRecords(cs)[..n], id) ==
            var i := Clients.IndexOf(cs, id);
            if i < n then Some(Clients.Normalized(id, cs[i].role, cs[i].hash, cs[i].active)) else None
  {
    if n > 0 {
      LastUpsertOfClients(cs, n - 1, id);
      var front := ClientRecords(cs)[..n];
      assert front[..n - 1] == ClientRecords(cs)[..n - 1];
      assert front[n - 1] == Upsert(cs[n - 1]);
      if cs[n - 1].id == id {
        Clients.IndexOfUnique(cs, n - 1);
      }
    }
  }

  lemma {:induction false} EntriesMentionNoClient(entries: seq<(Key, Entry)>, n: nat, id: seq<byte>)
    requires n <= |entries|
    ensures LastUpsert(EntryRecords(entries)[..n], id) == None
  {
    if n > 0 {
      EntriesMentionNoClient(entries, n - 1, id);
      assert EntryRecords(entries)[..n][..n - 1] == EntryRecords(entries)[..n - 1];
    }
  }

  /** An image says about a client what the registry said. */
  lemma LastUpsertOfImage(entries: seq<(Key, Entry)>, cs: seq<Clients.Client>, id: seq<byte>)
    requires Clients.UniqueIds(cs)
    ensures Inactive(Clients.Lookup(cs, id)) <==> Inactive(LastUpsert(ImageRecords(Image(entries, cs)), id))
  {
    EntriesMentionNoClient(entries, |entries|, id);
    LastUpsertOfClients(cs, |cs|, id);
    assert EntryRecords(entries)[..|entries|] == EntryRecords(entries);
    assert ClientRecords(cs)[..|cs|] == ClientRecords(cs);
    LastUpsertConcat(EntryRecords(entries), ClientRecords(cs), id);
  }

  lemma CheckpointKeepsRevoked(x: Live, d: Disk, env: Env, id: seq<byte>)
    requires Clients.UniqueIds(x.clients) && Inactive(Clients.Lookup(x.clients, id))
    requires env.checkpoint == Complete || Inactive(LastUpsert(Log(d), id))
    ensures Inactive(LastUpsert(Log(Checkpoint(x, d, env).0), id))
  {
    var image := ImageRecords(Image(env.listing, x.clients));
    LastUpsertOfImage(env.listing, x.clients, id);
    if env.checkpoint == Complete {
      assert image + [] == image;
    }
    if env.checkpoint == NotUnlinked {
      var base := if d.checkpoint.Some? then ImageRecords(d.checkpoint.value) else [];
      LastUpsertConcat(base, d.journal, id);
      LastUpsertConcat(image, d.journal, id);
    }
  }

  lemma AppendKeepsRevoked(d: Disk, r: Record, outcome: AppendOutcome, id: seq<byte>)
    requires Inactive(LastUpsert(Log(d), id))
    requires r.Upsert? && r.client.id == id ==> !r.client.active
    ensures Inactive(LastUpsert(Log(Append(d, r, outcome)), id))
  {
    var d' := Append(d, r, outcome);
    if outcome == Appended || outcome == Unconfirmed {
      assert Log(d') == Log(d) + [r];
      assert Log(d')[..|Log(d')| - 1] == Log(d);
    }
  }

  lemma SaveKeepsRevoked(x: Live, d: Disk, r: Record, env: Env, id: seq<byte>)
    requires Clients.UniqueIds(x.clients) && Inactive(Clients.Lookup(x.clients, id))
    requires Inactive(LastUpsert(Log(d), id))
    requires r.Upsert? && r.client.id == id ==> !r.client.active
    ensures Inactive(LastUpsert(Log(Save(x, d, r, env).0), id))
  {
    AppendKeepsRevoked(d, r, env.append(0), id);
    if env.append(0) != Appended {
      CheckpointKeepsRevoked(x, Append(d, r, env.append(0)), env, id);
    }
  }

  lemma {:induction false} PurgeKeepsRevoked(p: Purge, keys: seq<Key>, i: nat, env: Env, id: seq<byte>)
    requires i <= |keys| && Inactive(LastUpsert(Log(p.disk), id))
    ensures Inactive(LastUpsert(Log(PurgeFrom(p, keys, i, env).disk), id))
    decreases |keys| - i
  {
    if i < |keys| {
      if keys[i] !in p.table {
        PurgeKeepsRevoked(p, keys, i + 1, env, id);
      } else {
        AppendKeepsRevoked(p.disk, Remove(keys[i]), env.append(i), id);
        var d := if p.failed then p.disk else Append(p.disk, Remove(keys[i]), env.append(i));
        var q := Purge(p.table - {keys[i]}, d, p.failed || env.append(i) != Appended, p.purged + 1);
        PurgeKeepsRevoked(q, keys, i + 1, env, id);
      }
    }
  }

  /** A successful invalidation revokes, whether it was journaled or checkpointed. */
  lemma InvalidationRevokes(cfg: Config, s: State, id: seq<byte>, now: int, env: Env)
    requires Inv(cfg, s) && s.clock <= now
    requires Step(cfg, s, InvalidateToken(id), now, env).1 == 200
    ensures Revoked(Step(cfg, s, InvalidateToken(id), now, env).0, id)
  {
    hide DiskOk, TimesOk, WithinLimits, Replay, Load, Clients.IndexOf;
    var cs := s.live.clients;
    var w := Clients.Invalidate(cs, id);
    Clients.RegistryOperationsKeepWellFormed(cs, id, 0, Zeros(32), true);
    Clients.ChangeIsOnePut(cs, id, 0, Zeros(32));
    Clients.PutLookup(cs, Clients.Lookup(cs, id).value.(active := false, hash := Zeros(32)), id);
    var x, c := s.live.(clients := w.1), Clients.Lookup(w.1, id).value;
    if env.append(0) == Appended {
      var d' := Append(s.disk, Upsert(c), Appended);
      assert Log(d') == Log(s.disk) + [Upsert(c)];
      assert Log(d')[..|Log(d')| - 1] == Log(s.disk);
    } else {
      CheckpointKeepsRevoked(x, Append(s.disk, Upsert(c), env.append(0)), env, id);
    }
  }

  // ---------------------------------------------------------------- starts that fail

  /** The length of the longest prefix of the log that replays. */
  ghost function Accepted(l: Limits, x: Live, log: seq<Record>, t: int): (n: nat)
    ensures n <= |log|
  {
    if Replay(l, x, log, t).Some? then |log| else Accepted(l, x, log[..|log| - 1], t)
  }

  /** A failing start leaves in memory the effects of the longest prefix that replays. */
  lemma {:induction false} SalvageIsTheAcceptedPrefix(l: Limits, x: Live, log: seq<Record>, t: int)
    ensures Salvage(l, x, log, t) == Effects(x, log[..Accepted(l, x, log, t)], t)
  {
    if Replay(l, x, log, t).Some? {
      ReplayComputesEffects(l, x, log, t);
      SalvageConcat(l, x, log, [], t);
      assert log + [] == log && log[..|log|] == log;
    } else {
      var front, r := log[..|log| - 1], log[|log| - 1];
      assert front + [r] == log && [r][1..] == [];
      SalvageConcat(l, x, front, [r], t);
      SalvageIsTheAcceptedPrefix(l, x, front, t);
      if Replay(l, x, front, t).Some? {
        ReplayComputesEffects(l, x, front, t);
        assert front[..|front|] == front;
      }
      assert log[..Accepted(l, x, front, t)] == front[..Accepted(l, x, front, t)];
    }
  }

  /** In terms of the limits: the longest prefix of acceptable records that stays within them all along. */
  lemma {:induction false} AcceptedIsTheLongestWithin(l: Limits, x: Live, log: seq<Record>, t: int)
    requires Acceptable(l, log) && Room(l, x) && t >= 0
    ensures var n := Accepted(l, x, log, t);
            StaysWithin(l, x, log[..n], t) && (n < |log| ==> !StaysWithin(l, x, log[..n + 1], t))
  {
    hide StaysWithin, Room;
    ReplayExactlyWhenWithin(l, x, log, t);
    if Replay(l, x, log, t).Some? {
      assert log[..|log|] == log;
    } else {
      var front := log[..|log| - 1];
      AcceptedIsTheLongestWithin(l, x, front, t);
      var n := Accepted(l, x, front, t);
      assert log[..n] == front[..n];
      assert if n < |front| then log[..n + 1] == front[..n + 1] else log[..n + 1] == log;
    }
  }

  /** The records a start of these files gets to apply. */
  ghost function AppliedAtStart(l: Limits, d: Disk, now: int): seq<Record> {
    ReadableLog(d)[..Accepted(l, EMPTY, ReadableLog(d), now)]
  }

  /** Of files the service wrote, a start applies the longest readable prefix that stays within the limits. */
  lemma AppliedAtStartIsTheLongestWithin(l: Limits, d: Disk, now: int)
    requires DiskOk(l, d) && now >= 0
    ensures var log, n := ReadableLog(d), |AppliedAtStart(l, d, now)|;
            && n <= |log| && AppliedAtStart(l, d, now) == log[..n] && StaysWithin(l, EMPTY, log[..n], now)
            && (n < |log| ==> !StaysWithin(l, EMPTY, log[..n + 1], now))
  {
    hide StaysWithin, Acceptable;
    DiskIsAcceptable(l, d);
    assert Room(l, EMPTY);
    AcceptedIsTheLongestWithin(l, EMPTY, ReadableLog(d), now);
  }

  /** What a client's record is in a state built from a log alone. */
  lemma ClientOfLog(log: seq<Record>, t: int, id: seq<byte>)
    ensures Clients.Lookup(Effects(EMPTY, log, t).clients, id) == LastUpsert(log, id)
    ensures Clients.UniqueIds(Effects(EMPTY, log, t).clients)
  {
    ReplayMeaningForClients(EMPTY, log, t, id);
    EffectsKeepUniqueIds(EMPTY, log, t);
  }

  /**
   What ends a revocation: rotating this client's token, importing a state whose last word on the client
   is not a revocation, and a failing start whose applied records' last word is not one.
   */
  ghost predicate Restores(cfg: Config, s: State, e: Event, now: int, id: seq<byte>) {
    || (e.RotateToken? && e.id == id)
    || (e.ImportImage? && e.image.Some? && Replay(cfg.limits, EMPTY, ImageRecords(e.image.value), now).Some?
        && !Inactive(LastUpsert(ImageRecords(e.image.value), id)))
    || (e.Restart? && Load(cfg.limits, s.disk, now).None?
        && !Inactive(LastUpsert(AppliedAtStart(cfg.limits, s.disk, now), id)))
  }

  lemma ChangeOtherClientKeepsRevoked(cfg: Config, s: State, w: (Clients.Status, seq<Clients.Client>),
        c: Clients.Client, now: int, env: Env, id: seq<byte>)
    requires Inv(cfg, s) && Revoked(s, id)
    requires w.0 == Clients.Ok ==> w.1 == Clients.Put(s.live.clients, c) && Clients.UniqueIds(w.1)
    requires c.id != id || !c.active
    ensures Revoked(ChangeClient(s, w, c.id, now, env).0, id)
  {
    if w.0 == Clients.Ok {
      Clients.PutLookup(s.live.clients, c, id);
      Clients.PutLookup(s.live.clients, c, c.id);
      SaveKeepsRevoked(s.live.(clients := w.1), s.disk, Upsert(c), env, id);
    }
  }

  lemma ClientStepKeepsRevoked(cfg: Config, s: State, e: Event, now: int, env: Env, id: seq<byte>)
    requires Inv(cfg, s) && GoodEvent(e) && Revoked(s, id) && !Restores(cfg, s, e, now, id)
    requires e.RegisterClient? || e.RotateToken? || e.InvalidateToken?
    ensures Revoked(Step(cfg, s, e, now, env).0, id)
  {
    var cs := s.live.clients;
    match e {
      case RegisterClient(other, role, hash) =>
        Clients.RegistryOperationsKeepWellFormed(cs, other, role, hash, true);
        Clients.ChangeIsOnePut(cs, other, role, hash);
        if other != id {
          ChangeOtherClientKeepsRevoked(cfg, s, Clients.Register(cs, other, role, hash),
              Clients.Client(other, role, true, hash), now, env, id);
        }
      case RotateToken(other, hash) =>
        Clients.RegistryOperationsKeepWellFormed(cs, other, 0, hash, true);
        Clients.ChangeIsOnePut(cs, other, 0, hash);
        if Clients.Rotate(cs, other, hash).0 == Clients.Ok {
          ChangeOtherClientKeepsRevoked(cfg, s, Clients.Rotate(cs, other, hash),
                                        Clients.Lookup(cs, other).value.(active := true, hash := hash), now, env, id);
        }
      case InvalidateToken(other) =>
        Clients.RegistryOperationsKeepWellFormed(cs, other, 0, Zeros(32), true);
        Clients.ChangeIsOnePut(cs, other, 0, Zeros(32));
        if Clients.Invalidate(cs, other).0 == Clients.Ok {
          var c := Clients.Lookup(cs, other).value.(active := false, hash := Zeros(32));
          ChangeOtherClientKeepsRevoked(cfg, s, Clients.Invalidate(cs, other), c, now, env, id);
        }
    }
  }

  /** A start that loads keeps a revocation. */
  lemma LoadingStartKeepsRevoked(cfg: Config, s: State, now: int, env: Env, id: seq<byte>)
    requires Revoked(s, id) && Load(cfg.limits, s.disk, now).Some?
    ensures Revoked(Step(cfg, s, Restart, now, env).0, id)
  {
    hide Replay, Effects, Salvage, ReadableLog, LastUpsert, Clients.Lookup;
    ReplayComputesEffects(cfg.limits, EMPTY, Log(s.disk), now);
    ClientOfLog(Log(s.disk), now, id);
  }

  /**
   A failing start checkpoints what it loaded. It keeps the revocation in memory if and only if the last
   applied word on the client is a revocation; in the files also if the checkpoint stops before its
   rename, or before the removal of a journal that mentions the client.
   */
  lemma FailingStartKeepsRevocationExactlyWhen(cfg: Config, s: State, now: int, env: Env, id: seq<byte>)
    requires Revoked(s, id) && Load(cfg.limits, s.disk, now) == None
    ensures var s' := Step(cfg, s, Restart, now, env).0;
            var kept := Inactive(LastUpsert(AppliedAtStart(cfg.limits, s.disk, now), id));
            && (Inactive(Clients.Lookup(s'.live.clients, id)) <==> kept)
            && (Inactive(LastUpsert(Log(s'.disk), id)) <==>
                  || kept || env.checkpoint == NotRenamed
                  || (env.checkpoint == NotUnlinked && LastUpsert(s.disk.journal, id).Some?))
            && (Revoked(s', id) <==> kept)
  {
    hide Replay, Load, Effects, Salvage, ReadableLog, Accepted;
    var log := AppliedAtStart(cfg.limits, s.disk, now);
    SalvageIsTheAcceptedPrefix(cfg.limits, EMPTY, ReadableLog(s.disk), now);
    ClientOfLog(log, now, id);
    CheckpointSaysOf(Effects(EMPTY, log, now), s.disk, env, id);
  }

  /** What the files say of a client after a checkpoint, wherever it stopped. */
  lemma CheckpointSaysOf(x: Live, d: Disk, env: Env, id: seq<byte>)
    requires Clients.UniqueIds(x.clients) && Inactive(LastUpsert(Log(d), id))
    ensures Inactive(LastUpsert(Log(Checkpoint(x, d, env).0), id)) <==>
              || Inactive(Clients.Lookup(x.clients, id)) || env.checkpoint == NotRenamed
              || (env.checkpoint == NotUnlinked && LastUpsert(d.journal, id).Some?)
  {
    var image := ImageRecords(Image(env.listing, x.clients));
    LastUpsertOfImage(env.listing, x.clients, id);
    assert image + [] == image;
    var base := if d.checkpoint.Some? then ImageRecords(d.checkpoint.value) else [];
    LastUpsertConcat(base, d.journal, id);
    LastUpsertConcat(image, d.journal, id);
  }

  /** An import keeps the revocation if and only if the last word of its image on the client is one. */
  lemma ImportKeepsRevocationExactlyWhen(cfg: Config, s: State, image: Image, now: int, env: Env, id: seq<byte>)
    requires Revoked(s, id) && Replay(cfg.limits, EMPTY, ImageRecords(image), now).Some?
    ensures Revoked(Step(cfg, s, ImportImage(Some(image)), now, env).0, id) <==>
              Inactive(LastUpsert(ImageRecords(image), id))
  {
    hide Effects;
    ReplayComputesEffects(cfg.limits, EMPTY, ImageRecords(image), now);
    ClientOfLog(ImageRecords(image), now, id);
    CheckpointSaysOf(Effects(EMPTY, ImageRecords(image), now), s.disk, env, id);
  }

  /** Rotating the client's token always ends the revocation: an invalidated client is still known. */
  lemma RotationEndsRevocation(cfg: Config, s: State, id: seq<byte>, hash: seq<byte>, now: int, env: Env)
    requires Inv(cfg, s) && Revoked(s, id)
    ensures !Revoked(Step(cfg, s, RotateToken(id, hash), now, env).0, id)
  {
    var cs := s.live.clients;
    Clients.ChangeIsOnePut(cs, id, 0, hash);
    Clients.PutLookup(cs, Clients.Lookup(cs, id).value.(active := true, hash := hash), id);
    assert Clients.WellFormedClient(cs[Clients.IndexOf(cs, id)]);
  }

  lemma DeleteKeysKeepsRevoked(cfg: Config, s: State, keys: seq<Key>, now: int, env: Env, id: seq<byte>)
    requires Inv(cfg, s) && Revoked(s, id)
    ensures Revoked(Step(cfg, s, DeleteKeys(keys), now, env).0, id)
  {
    PurgeKeepsRevoked(Purge(s.live.table, s.disk, false, 0), keys, 0, env, id);
    var p := PurgeFrom(Purge(s.live.table, s.disk, false, 0), keys, 0, env);
    CheckpointKeepsRevoked(s.live.(table := p.table), p.disk, env, id);
  }

  lemma StepKeepsRevoked(cfg: Config, s: State, e: Event, now: int, env: Env, id: seq<byte>)
    requires Inv(cfg, s) && GoodEvent(e) && Revoked(s, id) && !Restores(cfg, s, e, now, id)
    ensures Revoked(Step(cfg, s, e, now, env).0, id)
  {
    hide Replay, PurgeFrom, ChangeClient, Save, Checkpoint, Load, Salvage, DiskOk, TimesOk;
    var x, d := s.live, s.disk;
    match e {
      case Get(_) =>
      case Sweep =>
      case PutEntry(k, v, ttl) =>
        SaveKeepsRevoked(x.(table := x.table[k := Entry(v, now + ttl)]), d, Set(k, v, now + ttl), env, id);
      case DeleteKey(k) => SaveKeepsRevoked(x.(table := x.table - {k}), d, Remove(k), env, id);
      case DeleteKeys(keys) => DeleteKeysKeepsRevoked(cfg, s, keys, now, env, id);
      case DeleteAll => SaveKeepsRevoked(x.(table := map[]), d, Record.PurgeAll, env, id);
      case RegisterClient(_, _, _) => ClientStepKeepsRevoked(cfg, s, e, now, env, id);
      case RotateToken(_, _) => ClientStepKeepsRevoked(cfg, s, e, now, env, id);
      case InvalidateToken(_) => ClientStepKeepsRevoked(cfg, s, e, now, env, id);
      case Export(_, _) => CheckpointKeepsRevoked(x, d, env, id);
      case ImportImage(image) =>
        if image.Some? && Replay(cfg.limits, EMPTY, ImageRecords(image.value), now).Some? {
          ImportKeepsRevocationExactlyWhen(cfg, s, image.value, now, env, id);
        }
      case Shutdown => CheckpointKeepsRevoked(x, d, env, id);
      case Restart =>
        if Load(cfg.limits, d, now).Some? {
          LoadingStartKeepsRevoked(cfg, s, now, env, id);
        } else {
          FailingStartKeepsRevocationExactlyWhen(cfg, s, now, env, id);
        }
    }
  }

  /** A step ends a revocation if and only if it is one of those. */
  lemma StepEndsRevocationExactlyWhen(cfg: Config, s: State, e: Event, now: int, env: Env, id: seq<byte>)
    requires Inv(cfg, s) && GoodEvent(e) && Revoked(s, id)
    ensures Revoked(Step(cfg, s, e, now, env).0, id) <==> !Restores(cfg, s, e, now, id)
  {
    hide Step, Replay, Load, Inv, Revoked;
    if !Restores(cfg, s, e, now, id) {
      StepKeepsRevoked(cfg, s, e, now, env, id);
    } else if e.RotateToken? {
      RotationEndsRevocation(cfg, s, id, e.hash, now, env);
    } else if e.ImportImage? {
      ImportKeepsRevocationExactlyWhen(cfg, s, e.image.value, now, env, id);
    } else {
      FailingStartKeepsRevocationExactlyWhen(cfg, s, now, env, id);
    }
  }

  /** No step of the run ends the revocation. */
  ghost predicate NeverRestores(cfg: Config, s: State, moves: seq<Move>, id: seq<byte>) {
    |moves| > 0 ==>
      var front, m := moves[..|moves| - 1], moves[|moves| - 1];
      NeverRestores(cfg, s, front, id) && !Restores(cfg, Run(cfg, s, front), m.event, m.now, id)
  }

  lemma {:induction false} RunKeepsRevoked(cfg: Config, s: State, moves: seq<Move>, id: seq<byte>)
    requires Inv(cfg, s) && Revoked(s, id)
    requires ValidRun(cfg, s, moves) && NeverRestores(cfg, s, moves, id)
    ensures Inv(cfg, Run(cfg, s, moves)) && Revoked(Run(cfg, s, moves), id)
  {
    if |moves| > 0 {
      var front, m := moves[..|moves| - 1], moves[|moves| - 1];
      RunKeepsRevoked(cfg, s, front, id);
      StepKeepsInv(cfg, Run(cfg, s, front), m.event, m.now, m.env);
      StepKeepsRevoked(cfg, Run(cfg, s, front), m.event, m.now, m.env, id);
    }
  }

  /**
   Revocation lasts: after an invalidation answered 200, no token authenticates as that client's
   record in any later state of the run, through crashes and restarts, until a step that `Restores` it.
   */
  lemma RevocationLasts(cfg: Config, s: State, id: seq<byte>, now: int, env: Env, moves: seq<Move>, hash: seq<byte>)
    requires Inv(cfg, s) && Allowed(cfg, s, InvalidateToken(id), now, env)
    requires Step(cfg, s, InvalidateToken(id), now, env).1 == 200
    requires var s' := Step(cfg, s, InvalidateToken(id), now, env).0;
             ValidRun(cfg, s', moves) && NeverRestores(cfg, s', moves, id)
    ensures var cs := Run(cfg, Step(cfg, s, InvalidateToken(id), now, env).0, moves).live.clients;
            var i := Clients.FirstMatch(cs, hash);
            i < |cs| ==> cs[i].id != id
  {
    var s' := Step(cfg, s, InvalidateToken(id), now, env).0;
    StepKeepsInv(cfg, s, InvalidateToken(id), now, env);
    InvalidationRevokes(cfg, s, id, now, env);
    RunKeepsRevoked(cfg, s', moves, id);
    var cs := Run(cfg, s', moves).live.clients;
    var i := Clients.FirstMatch(cs, hash);
    if i < |cs| {
      Clients.IndexOfUnique(cs, i);
    }
  }

  // ---------------------------------------------------------------- a failing start that ends one

  const C: seq<byte> := [99]

  function Client(active: bool): Clients.Client {
    Clients.Client(C, Clients.ROLE_CLIENT, active, if active then Zeros(31) + [1] else Zeros(32))
  }

  /** Registering c, writing and deleting `a`, revoking c and writing `b`; then an export stopped after its rename. */
  function UnremovedJournal(): Disk {
    var e := Entry(TenBytes(), 100);
    Disk(Some(Image([(B, e)], [Client(false)])),
         [Upsert(Client(true)), Set(A, e.value, 100), Remove(A), Upsert(Client(false)), Set(B, e.value, 100)], None)
  }

  /** The next start applies the image and the old registration, is refused at `a`, and checkpoints c active. */
  lemma AFailingStartCanEndARevocation(cfg: Config)
    requires cfg == Config(SMALL, 1, 200)
    ensures var s := State(Live(map[B := Entry(TenBytes(), 100)], [Client(false)]), UnremovedJournal(), 0);
            var s' := Step(cfg, s, Restart, 0, NoAppend(Complete, [(B, Entry(TenBytes(), 100))])).0;
            && Inv(cfg, s) && Revoked(s, C) && !Revoked(s', C)
            && Clients.Lookup(s'.live.clients, C) == Some(Client(true))
  {
    hide Replay, Salvage, Inv, LastUpsert, Apply;
    var e, d := Entry(TenBytes(), 100), UnremovedJournal();
    var s := State(Live(map[B := e], [Client(false)]), d, 0);
    var x, y := Live(map[B := e], [Client(false)]), Live(map[B := e], [Client(true)]);
    WitnessIsWellFormed(cfg, s);
    WitnessReplay(d, x, y);
    WitnessLastUpsert(d);
    SalvageConcat(SMALL, EMPTY, ImageRecords(d.checkpoint.value), d.journal, 0);
    SalvageStops(SMALL, x, y, d.journal, 0);
    assert ReadableLog(d) == ImageRecords(d.checkpoint.value) + d.journal;
  }

  lemma WitnessSizes(e: Entry)
    requires |e.value| == 10
    ensures ListingCost([(B, e)]) == Cost(B, e.value)
    ensures EntryBytes([(B, e)]) == 27 && ClientBytes([Client(false)]) == 45
  {
    var es, cs := [(B, e)], [Client(false)];
    assert es[..0] == [] && cs[..0] == [];
    assert ClientBytes(cs) == ClientBytes([]) + 12 + |cs[0].hash| + |cs[0].id|;
  }

  lemma WitnessIsWellFormed(cfg: Config, s: State)
    requires cfg == Config(SMALL, 1, 200)
    requires s == State(Live(map[B := Entry(TenBytes(), 100)], [Client(false)]), UnremovedJournal(), 0)
    ensures Inv(cfg, s)
    ensures CheckpointReadable(s.disk)
  {
    var e := Entry(TenBytes(), 100);
    OneEntryCost(B, e);
    WitnessSizes(e);
    assert forall b :: Clients.WellFormedClient(Client(b));
    var journal := s.disk.journal;
    assert forall i :: 0 <= i < |journal| ==> JournalRecordOk(SMALL, journal[i]);
  }

  lemma WitnessLastUpsert(d: Disk)
    requires d == UnremovedJournal()
    ensures Inactive(LastUpsert(Log(d), C))
  {
    var log := Log(d);
    var n := |log|;
    assert log[n - 1] == Set(B, TenBytes(), 100) && log[..n - 1][n - 2] == Upsert(Client(false));
    assert LastUpsert(log, C) == LastUpsert(log[..n - 1], C);
  }

  lemma WitnessReplay(d: Disk, x: Live, y: Live)
    requires d == UnremovedJournal()
    requires x == Live(map[B := Entry(TenBytes(), 100)], [Client(false)]) && y == x.(clients := [Client(true)])
    ensures Replay(SMALL, EMPTY, ImageRecords(d.checkpoint.value), 0) == Some(x)
    ensures Apply(SMALL, x, d.journal[0], 0) == Some(y) && Apply(SMALL, y, d.journal[1], 0) == None
    ensures Load(SMALL, d, 0) == None
  {
    var e := Entry(TenBytes(), 100);
    OneEntryCost(B, e);
    assert Active(x.table, 0) == x.table && [(B, e)][0].0 == B;
    assert Clients.WellFormedClient(Client(false)) && Clients.WellFormedClient(Client(true));
    ImageLoads(SMALL, [(B, e)], x, 0, 0);
    assert Clients.Put([Client(false)], Client(true)) == [Client(true)];
    TotalCostUpdate(y.table, A, Entry(e.value, 0));
    var rest := d.journal[2..];
    assert d.journal == [d.journal[0]] + ([d.journal[1]] + rest);
    ReplayConcat(SMALL, EMPTY, ImageRecords(d.checkpoint.value), d.journal, 0);
    ReplayConcat(SMALL, x, [d.journal[0]], [d.journal[1]] + rest, 0);
    ReplayConcat(SMALL, y, [d.journal[1]], rest, 0);
    ReplayOne(SMALL, x, d.journal[0], 0);
    ReplayOne(SMALL, y, d.journal[1], 0);
  }

  lemma SalvageStops(l: Limits, x: Live, y: Live, log: seq<Record>, t: int)
    requires |log| >= 2 && Apply(l, x, log[0], t) == Some(y) && Apply(l, y, log[1], t) == None
    ensures Salvage(l, x, log, t) == y
  {
    assert log[1..][0] == log[1];
  }
}
