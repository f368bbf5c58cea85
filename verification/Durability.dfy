/**
 What survives a restart. The run theorems say when loading the files reproduces the live state,
 the crash theorems say what each interrupted checkpoint leaves behind, and the witnesses show that
 their conditions are needed.
 */
module Durability {
  import opened Bytes
  import opened CacheTable
  import opened Recovery
  import opened Machine
  import Clients

  /** The part of the live state a load at time `t` must reproduce. */
  function View(x: Live, t: int): Live {
    Live(Active(x.table, t), x.clients)
  }

  /**
   How well the files describe the live state: `Exact` when a load succeeds and reproduces it,
   `Safe` when a load either fails or reproduces it, `Lost` when nothing is claimed.
   */
  datatype Quality = Exact | Safe | Lost

  ghost predicate Describes(d: Disk, x: Live, now: int) {
    d.tear.None? && forall t :: t >= now ==> Effects(EMPTY, Log(d), t) == View(x, t)
  }

  ghost predicate Reproduces(l: Limits, d: Disk, x: Live, now: int) {
    forall t :: t >= now ==> Load(l, d, t) == Some(View(x, t))
  }

  ghost predicate Holds(l: Limits, q: Quality, d: Disk, x: Live, now: int) {
    match q
    case Exact => Reproduces(l, d, x, now)
    case Safe => Describes(d, x, now)
    case Lost => true
  }

  lemma ReproducesDescribes(l: Limits, d: Disk, x: Live, now: int)
    requires Reproduces(l, d, x, now)
    ensures Describes(d, x, now)
  {
    assert Load(l, d, now).Some?;
    forall t | t >= now
      ensures Effects(EMPTY, Log(d), t) == View(x, t)
    {
      assert Load(l, d, t) == Some(View(x, t));
      ReplayComputesEffects(l, EMPTY, Log(d), t);
    }
  }

  /** A described state is never loaded wrongly. */
  lemma DescribedLoadsAreRight(l: Limits, d: Disk, x: Live, now: int, t: int)
    requires Describes(d, x, now) && t >= now
    ensures Load(l, d, t) == None || Load(l, d, t) == Some(View(x, t))
  {
    if Load(l, d, t).Some? {
      ReplayComputesEffects(l, EMPTY, Log(d), t);
    }
  }

  // ---------------------------------------------------------------- one journaled change

  /** The record changes every later view of `x` into that of `y`, and no load refuses it. */
  ghost predicate Journals(l: Limits, x: Live, r: Record, y: Live, now: int) {
    forall t :: t >= now ==> Apply(l, View(x, t), r, t) == Some(View(y, t))
  }

  lemma ApplyComputesEffect(l: Limits, x: Live, r: Record, t: int)
    ensures Apply(l, x, r, t).Some? ==> Apply(l, x, r, t).value == Effect(x, r, t)
  {
    if r.Remove? && r.removed !in x.table {
      assert x.table - {r.removed} == x.table;
    }
  }

  lemma AppendKeepsQuality(l: Limits, q: Quality, x: Live, y: Live, d: Disk, r: Record, before: int, now: int)
    requires Holds(l, q, d, x, before) && before <= now
    requires Journals(l, x, r, y, now)
    ensures Holds(l, q, Append(d, r, Appended), y, now)
  {
    var d' := Append(d, r, Appended);
    assert Log(d') == Log(d) + [r];
    assert Log(d')[..|Log(d')| - 1] == Log(d);
    forall t | t >= now
      ensures q == Exact ==> Load(l, d', t) == Some(View(y, t))
      ensures q == Safe ==> Effects(EMPTY, Log(d'), t) == View(y, t)
    {
      assert Apply(l, View(x, t), r, t) == Some(View(y, t));
      if q == Exact {
        assert Load(l, d, t) == Some(View(x, t));
      }
      if q == Safe {
        assert Effects(EMPTY, Log(d), t) == View(x, t);
        ApplyComputesEffect(l, View(x, t), r, t);
      }
    }
  }

  /** Overwriting `k` with an entry that expires at `e` cuts its life short. */
  predicate Shortens(t: Table, k: Key, e: int) {
    k in t && t[k].expires > e
  }

  lemma SetJournals(l: Limits, x: Live, k: Key, v: seq<byte>, e: int, now: int)
    requires WithinLimits(l, x.table) && now >= 0
    requires Write(l, x.table, k, v, e).0 == Ok && !Shortens(x.table, k, e)
    ensures Journals(l, x, Set(k, v, e), x.(table := x.table[k := Entry(v, e)]), now)
  {
    var y := x.table[k := Entry(v, e)];
    forall t | t >= now
      ensures Apply(l, View(x, t), Set(k, v, e), t) == Some(View(x.(table := y), t))
    {
      var a := Active(x.table, t);
      if e <= t {
        assert Active(y, t) == a;
      } else {
        assert Active(y, t) == a[k := Entry(v, e)];
        TotalCostMonotone(a[k := Entry(v, 0)], x.table[k := Entry(v, 0)]);
      }
    }
  }

  lemma RemoveJournals(l: Limits, x: Live, k: Key, now: int)
    ensures Journals(l, x, Remove(k), x.(table := x.table - {k}), now)
  {
    forall t | t >= now
      ensures Apply(l, View(x, t), Remove(k), t) == Some(View(x.(table := x.table - {k}), t))
    {
      assert Delete(Active(x.table, t), k).1 == Active(x.table - {k}, t);
    }
  }

  lemma PurgeAllJournals(l: Limits, x: Live, now: int)
    ensures Journals(l, x, PurgeAll, x.(table := map[]), now)
  {
  }

  lemma UpsertJournals(l: Limits, x: Live, c: Clients.Client, now: int)
    requires Clients.WellFormedClient(c)
    requires Clients.IndexOf(x.clients, c.id) < |x.clients| || |x.clients| < Clients.MAX_CLIENTS
    ensures Journals(l, x, Upsert(c), x.(clients := Clients.Put(x.clients, c)), now)
  {
    assert Clients.Normalized(c.id, c.role, c.hash, c.active) == c;
  }

  // ---------------------------------------------------------------- a complete checkpoint

  /** An entry that is still active goes into any part of the table it came from. */
  lemma ActiveEntryLoads(l: Limits, y: Table, x: Table, k: Key, t: int)
    requires WithinLimits(l, x) && t >= 0 && SubTable(y, Active(x, t)) && k in Active(x, t)
    ensures Restore(l, y, k, x[k].value, x[k].expires) == (Ok, y[k := x[k]])
    ensures SubTable(y[k := x[k]], Active(x, t))
  {
    TotalCostMonotone(y[k := x[k]], x);
    CostIgnoresExpiry(y, k, x[k].value, 0, x[k].expires);
  }

  lemma {:induction false} EntriesLoad(l: Limits, entries: seq<(Key, Entry)>, x: Table, now: int, t: int, n: nat)
    requires Lists(entries, Active(x, now)) && now <= t && 0 <= t && WithinLimits(l, x) && n <= |entries|
    ensures var r := Replay(l, EMPTY, EntryRecords(entries)[..n], t);
            && r.Some? && r.value.clients == []
            && SubTable(r.value.table, Active(x, t))
            && forall i :: 0 <= i < n && entries[i].1.expires > t ==> entries[i].0 in r.value.table
  {
    if n > 0 {
      EntriesLoad(l, entries, x, now, t, n - 1);
      var front := EntryRecords(entries)[..n];
      assert front[..n - 1] == EntryRecords(entries)[..n - 1];
      var k, e := entries[n - 1].0, entries[n - 1].1;
      assert front[n - 1] == Set(k, e.value, e.expires) && x[k] == e;
      if e.expires > t {
        ActiveEntryLoads(l, Replay(l, EMPTY, front[..n - 1], t).value.table, x, k, t);
      }
    }
  }

  lemma NextClientImports(cs: seq<Clients.Client>, n: nat)
    requires Clients.WellFormed(cs) && n < |cs|
    ensures var c := cs[n]; Clients.Import(cs[..n], c.id, c.role, c.hash, c.active) == (Clients.Ok, cs[..n + 1])
  {
    var c := cs[n];
    assert Clients.WellFormedClient(c);
    assert Clients.IndexOf(cs[..n], c.id) == n;
    assert Clients.Normalized(c.id, c.role, c.hash, c.active) == c;
    assert cs[..n] + [c] == cs[..n + 1];
  }

  lemma {:induction false} ClientsLoad(l: Limits, x: Live, cs: seq<Clients.Client>, t: int, n: nat)
    requires Clients.WellFormed(cs) && n <= |cs| && x.clients == []
    ensures Replay(l, x, ClientRecords(cs)[..n], t) == Some(x.(clients := cs[..n]))
  {
    if n > 0 {
      ClientsLoad(l, x, cs, t, n - 1);
      var front := ClientRecords(cs)[..n];
      assert front[..n - 1] == ClientRecords(cs)[..n - 1];
      assert front[n - 1] == Upsert(cs[n - 1]);
      NextClientImports(cs, n - 1);
    }
  }

  /** An image of a well-formed state loads, at any later time, to what is still active. */
  lemma ImageLoads(l: Limits, entries: seq<(Key, Entry)>, x: Live, now: int, t: int)
    requires Lists(entries, Active(x.table, now)) && now <= t && 0 <= t && WellFormed(l, x)
    ensures Replay(l, EMPTY, ImageRecords(Image(entries, x.clients)), t) == Some(View(x, t))
  {
    var a, b := EntryRecords(entries), ClientRecords(x.clients);
    EntriesLoad(l, entries, x.table, now, t, |entries|);
    assert a[..|entries|] == a;
    var y := Replay(l, EMPTY, a, t).value;
    assert y.table == Active(x.table, t) by {
      forall k | k in Active(x.table, t)
        ensures k in y.table
      {
        assert k in Active(x.table, now);
        var i :| 0 <= i < |entries| && entries[i].0 == k;
      }
    }
    ReplayConcat(l, EMPTY, a, b, t);
    ClientsLoad(l, y, x.clients, t, |x.clients|);
    assert b[..|x.clients|] == b && x.clients[..|x.clients|] == x.clients;
  }

  function Later(a: int, b: int): int {
    if a < b then b else a
  }

  /** Two clocks that have passed no expiry in the log replay it alike. */
  lemma {:induction false} ReplayBeforeEveryExpiry(l: Limits, x: Live, log: seq<Record>, t: int, u: int)
    requires forall i :: 0 <= i < |log| && log[i].Set? ==> log[i].expires > t && log[i].expires > u
    ensures Replay(l, x, log, t) == Replay(l, x, log, u)
  {
    if |log| > 0 {
      ReplayBeforeEveryExpiry(l, x, log[..|log| - 1], t, u);
    }
  }

  /** Loaded on a clock ahead of the writer's or behind it, an image gives what is active at the later of both times. */
  lemma ImageLoadsAtAnyTime(l: Limits, entries: seq<(Key, Entry)>, x: Live, now: int, t: int)
    requires Lists(entries, Active(x.table, now)) && 0 <= Later(now, t) && WellFormed(l, x)
    ensures Replay(l, EMPTY, ImageRecords(Image(entries, x.clients)), t) == Some(View(x, Later(now, t)))
  {
    hide Replay;
    if now <= t {
      ImageLoads(l, entries, x, now, t);
    } else {
      var y := View(x, now);
      SubTableKeepsLimits(l, y.table, x.table);
      assert Active(y.table, now) == y.table;
      ReplayBeforeEveryExpiry(l, EMPTY, ImageRecords(Image(entries, x.clients)), t, now);
      ImageLoads(l, entries, y, now, now);
    }
  }

  /** The image a checkpoint of this state writes is below the 32-bit length field. */
  predicate WritesLoadable(x: Live, env: Env) {
    Loadable(Image(env.listing, x.clients))
  }

  /** After a complete checkpoint every later load gives the live state if the image is below 4 GiB, and none else. */
  lemma CompleteCheckpointIsExactBelow4GiB(l: Limits, x: Live, d: Disk, env: Env, now: int)
    requires WellFormed(l, x) && now >= 0 && Lists(env.listing, Active(x.table, now))
    requires env.checkpoint == Complete
    ensures Reproduces(l, Checkpoint(x, d, env).0, x, now) <==> WritesLoadable(x, env)
    ensures Describes(Checkpoint(x, d, env).0, x, now)
    ensures !WritesLoadable(x, env) ==> forall t :: Load(l, Checkpoint(x, d, env).0, t) == None
  {
    var d' := Checkpoint(x, d, env).0;
    assert Log(d') == ImageRecords(Image(env.listing, x.clients));
    forall t | t >= now
      ensures WritesLoadable(x, env) ==> Load(l, d', t) == Some(View(x, t))
      ensures Effects(EMPTY, Log(d'), t) == View(x, t)
    {
      ImageLoads(l, env.listing, x, now, t);
      ImageEffects(l, env.listing, x, now, t);
    }
    assert !WritesLoadable(x, env) ==> Load(l, d', now) == None;
  }

  // ---------------------------------------------------------------- crashes inside a checkpoint

  /** Effects of an image alone, without limits. */
  lemma ImageEffects(l: Limits, entries: seq<(Key, Entry)>, x: Live, now: int, t: int)
    requires Lists(entries, Active(x.table, now)) && 0 <= now <= t && WellFormed(l, x)
    ensures Effects(EMPTY, ImageRecords(Image(entries, x.clients)), t) == View(x, t)
  {
    ImageLoads(l, entries, x, now, t);
    ReplayComputesEffects(l, EMPTY, ImageRecords(Image(entries, x.clients)), t);
  }

  /** A new image with the journal still in place amounts to replaying the journal over the image. */
  lemma NotUnlinkedEffects(l: Limits, x: Live, d: Disk, env: Env, now: int, t: int)
    requires WellFormed(l, x) && 0 <= now <= t && Lists(env.listing, Active(x.table, now))
    requires env.checkpoint == NotUnlinked
    ensures Effects(EMPTY, Log(Checkpoint(x, d, env).0), t) == Effects(View(x, t), d.journal, t)
  {
    ImageEffects(l, env.listing, x, now, t);
    EffectsConcat(EMPTY, ImageRecords(Image(env.listing, x.clients)), d.journal, t);
  }

  /**
   Checkpoint crash safety: when the files describe the live state, they still do wherever the
   checkpoint stops, so a load never returns anything but the live state.
   */
  lemma CheckpointIsCrashSafe(l: Limits, x: Live, d: Disk, env: Env, before: int, now: int)
    requires Describes(d, x, before) && 0 <= before <= now
    requires WellFormed(l, x) && Lists(env.listing, Active(x.table, now))
    ensures Describes(Checkpoint(x, d, env).0, x, now)
  {
    var d' := Checkpoint(x, d, env).0;
    match env.checkpoint {
      case Complete => CompleteCheckpointIsExactBelow4GiB(l, x, d, env, now);
      case NotRenamed =>
      case NotUnlinked =>
        forall t | t >= now
          ensures Effects(EMPTY, Log(d'), t) == View(x, t)
        {
          NotUnlinkedEffects(l, x, d, env, now, t);
          JournalIsIdempotentOnItsResult(d, x, before, t);
        }
    }
  }

  lemma JournalIsIdempotentOnItsResult(d: Disk, x: Live, before: int, t: int)
    requires Describes(d, x, before) && t >= before
    ensures Effects(View(x, t), d.journal, t) == View(x, t)
  {
    var base := if d.checkpoint.Some? then ImageRecords(d.checkpoint.value) else [];
    assert Log(d) == base + d.journal;
    EffectsConcat(EMPTY, base, d.journal, t);
    var y := Effects(EMPTY, base, t);
    EffectsKeepUniqueIds(EMPTY, base, t);
    assert Effects(EMPTY, Log(d), t) == View(x, t);
    ReplayIsIdempotent(y, d.journal, t);
  }

  // ---------------------------------------------------------------- whole runs

  /** After a checkpoint of `x`, when `q` was claimed before. */
  function CheckpointQuality(q: Quality, x: Live, env: Env): Quality {
    match env.checkpoint
    case Complete => if WritesLoadable(x, env) then Exact else Safe
    case NotRenamed => q
    case NotUnlinked => if q == Exact then Safe else q
  }

  /** After a change to `y` that only a checkpoint can record. */
  function ReplacedQuality(y: Live, env: Env): Quality {
    if env.checkpoint == Complete then CheckpointQuality(Lost, y, env) else Lost
  }

  /** After a change to `y` with an append and, if that fails, a checkpoint. */
  function SavedQuality(q: Quality, y: Live, env: Env, shortened: bool): Quality {
    match env.append(0)
    case Appended => if shortened then Lost else q
    case Unconfirmed => CheckpointQuality(if shortened then Lost else q, y, env)
    case _ => ReplacedQuality(y, env)
  }

  /**
   How a step changes the claim about the files. Only a change that is neither journaled nor
   checkpointed, and an overwrite that shortens a life, lose it; a complete checkpoint of less than
   4 GiB restores it.
   */
  ghost function NextQuality(cfg: Config, q: Quality, s: State, e: Event, now: int, env: Env): Quality {
    var l, x, d, y := cfg.limits, s.live, s.disk, Step(cfg, s, e, now, env).0.live;
    match e
    case Get(_) => q
    case Sweep => q
    case PutEntry(k, v, ttl) =>
      if !(cfg.minTtl <= ttl <= cfg.maxTtl) || Write(l, x.table, k, v, now + ttl).0 != Ok then q
      else SavedQuality(q, y, env, Shortens(x.table, k, now + ttl))
    case DeleteKey(k) => if k in x.table then SavedQuality(q, y, env, false) else q
    case DeleteKeys(keys) =>
      if PurgeFrom(Purge(x.table, d, false, 0), keys, 0, env).failed then ReplacedQuality(y, env) else q
    case DeleteAll => SavedQuality(q, y, env, false)
    case RegisterClient(id, role, hash) =>
      if Clients.Register(x.clients, id, role, hash).0 == Clients.Ok then SavedQuality(q, y, env, false) else q
    case RotateToken(id, hash) =>
      if Clients.Rotate(x.clients, id, hash).0 == Clients.Ok then SavedQuality(q, y, env, false) else q
    case InvalidateToken(id) =>
      if Clients.Invalidate(x.clients, id).0 == Clients.Ok then SavedQuality(q, y, env, false) else q
    case Export(hasRoom, _) => if hasRoom then CheckpointQuality(q, x, env) else q
    case ImportImage(image) =>
      if image.Some? && Replay(l, EMPTY, ImageRecords(image.value), now).Some? then ReplacedQuality(y, env) else q
    case Shutdown => CheckpointQuality(q, x, env)
    case Restart => if Load(l, d, now).Some? then q else ReplacedQuality(y, env)
  }

  lemma ViewOfView(x: Live, now: int, t: int)
    requires t >= now
    ensures View(View(x, now), t) == View(x, t)
    ensures forall k :: View(x.(table := CacheTable.Get(x.table, k, now).1), t) == View(x, t)
  {
    forall k
      ensures View(x.(table := CacheTable.Get(x.table, k, now).1), t) == View(x, t)
    {
      assert Active(CacheTable.Get(x.table, k, now).1, t) == Active(x.table, t);
    }
  }

  /** Dropping expired entries, by a sweep or on a read, needs no journal record. */
  lemma SameViewsKeepQuality(l: Limits, q: Quality, d: Disk, x: Live, y: Live, before: int, now: int)
    requires Holds(l, q, d, x, before) && before <= now
    requires forall t :: t >= now ==> View(y, t) == View(x, t)
    ensures Holds(l, q, d, y, now)
  {
  }

  lemma SaveKeepsQuality(l: Limits, q: Quality, x: Live, y: Live, d: Disk, r: Record, shortened: bool, env: Env,
        before: int, now: int)
    requires Holds(l, q, d, x, before) && 0 <= before <= now
    requires WellFormed(l, y) && Lists(env.listing, Active(y.table, now))
    requires !shortened ==> Journals(l, x, r, y, now)
    ensures Holds(l, SavedQuality(q, y, env, shortened), Save(y, d, r, env).0, y, now)
  {
    var d' := Append(d, r, env.append(0));
    if env.append(0) == Appended || env.append(0) == Unconfirmed {
      var q' := if shortened then Lost else q;
      if !shortened {
        AppendKeepsQuality(l, q, x, y, d, r, before, now);
        assert d' == Append(d, r, Appended);
      }
      if env.append(0) == Unconfirmed {
        CheckpointKeepsQuality(l, q', y, d', env, now, now);
      }
    } else if env.checkpoint == Complete {
      CompleteCheckpointIsExactBelow4GiB(l, y, d', env, now);
    }
  }

  lemma CheckpointKeepsQuality(l: Limits, q: Quality, x: Live, d: Disk, env: Env, before: int, now: int)
    requires Holds(l, q, d, x, before) && 0 <= before <= now
    requires WellFormed(l, x) && Lists(env.listing, Active(x.table, now))
    ensures Holds(l, CheckpointQuality(q, x, env), Checkpoint(x, d, env).0, x, now)
  {
    if env.checkpoint == Complete {
      CompleteCheckpointIsExactBelow4GiB(l, x, d, env, now);
    } else if q != Lost {
      if q == Exact {
        ReproducesDescribes(l, d, x, before);
      }
      CheckpointIsCrashSafe(l, x, d, env, before, now);
    }
  }

  lemma {:induction false} PurgeKeepsQuality(l: Limits, q: Quality, x: Live, p: Purge, keys: seq<Key>, i: nat, env: Env,
      now: int)
    requires i <= |keys| && !p.failed && x.table == p.table
    requires Holds(l, q, p.disk, x, now)
    ensures var r := PurgeFrom(p, keys, i, env); !r.failed ==> Holds(l, q, r.disk, x.(table := r.table), now)
    decreases |keys| - i
  {
    if i < |keys| {
      if keys[i] !in p.table {
        PurgeKeepsQuality(l, q, x, p, keys, i + 1, env, now);
      } else {
        var k := keys[i];
        var y := x.(table := p.table - {k});
        var next := Purge(y.table, Append(p.disk, Remove(k), env.append(i)), env.append(i) != Appended, p.purged + 1);
        if next.failed {
          FailedPurgeStaysFailed(next, keys, i + 1, env);
        } else {
          RemoveJournals(l, x, k, now);
          AppendKeepsQuality(l, q, x, y, p.disk, Remove(k), now, now);
          PurgeKeepsQuality(l, q, y, next, keys, i + 1, env, now);
        }
      }
    }
  }

  lemma {:induction false} FailedPurgeStaysFailed(p: Purge, keys: seq<Key>, i: nat, env: Env)
    requires i <= |keys| && p.failed
    ensures PurgeFrom(p, keys, i, env).failed
    decreases |keys| - i
  {
    if i < |keys| {
      if keys[i] in p.table {
        FailedPurgeStaysFailed(Purge(p.table - {keys[i]}, p.disk, true, p.purged + 1), keys, i + 1, env);
      } else {
        FailedPurgeStaysFailed(p, keys, i + 1, env);
      }
    }
  }

  lemma ChangeClientKeepsQuality(cfg: Config, q: Quality, s: State, w: (Clients.Status, seq<Clients.Client>),
      c: Clients.Client, now: int, env: Env)
    requires Inv(cfg, s) && s.clock <= now
    requires Holds(cfg.limits, q, s.disk, s.live, s.clock)
    requires w.0 == Clients.Ok && w.1 == Clients.Put(s.live.clients, c) && Clients.WellFormed(w.1)
    requires Lists(env.listing, Active(s.live.table, now))
    ensures var s' := ChangeClient(s, w, c.id, now, env).0;
            Holds(cfg.limits, SavedQuality(q, s'.live, env, false), s'.disk, s'.live, now)
  {
    var l, y := cfg.limits, s.live.(clients := w.1);
    Clients.PutLookup(s.live.clients, c, c.id);
    var i := Clients.IndexOf(w.1, c.id);
    assert Clients.WellFormedClient(w.1[i]);
    assert |w.1| <= Clients.MAX_CLIENTS;
    UpsertJournals(l, s.live, c, now);
    SaveKeepsQuality(l, q, s.live, y, s.disk, Upsert(c), false, env, s.clock, now);
  }

  lemma ClientStepKeepsQuality(cfg: Config, q: Quality, s: State, e: Event, now: int, env: Env)
    requires Inv(cfg, s) && Allowed(cfg, s, e, now, env)
    requires Holds(cfg.limits, q, s.disk, s.live, s.clock)
    requires e.RegisterClient? || e.RotateToken? || e.InvalidateToken?
    ensures var s' := Step(cfg, s, e, now, env).0;
            Holds(cfg.limits, NextQuality(cfg, q, s, e, now, env), s'.disk, s'.live, now)
  {
    var cs := s.live.clients;
    match e {
      case RegisterClient(id, role, hash) =>
        Clients.RegistryOperationsKeepWellFormed(cs, id, role, hash, true);
        Clients.ChangeIsOnePut(cs, id, role, hash);
        if Clients.Register(cs, id, role, hash).0 == Clients.Ok {
          var c := Clients.Client(id, role, true, hash);
          ChangeClientKeepsQuality(cfg, q, s, Clients.Register(cs, id, role, hash), c, now, env);
        }
      case RotateToken(id, hash) =>
        Clients.RegistryOperationsKeepWellFormed(cs, id, 0, hash, true);
        Clients.ChangeIsOnePut(cs, id, 0, hash);
        if Clients.Rotate(cs, id, hash).0 == Clients.Ok {
          ChangeClientKeepsQuality(cfg, q, s, Clients.Rotate(cs, id, hash),
                                   Clients.Lookup(cs, id).value.(active := true, hash := hash), now, env);
        }
      case InvalidateToken(id) =>
        Clients.RegistryOperationsKeepWellFormed(cs, id, 0, Zeros(32), true);
        Clients.ChangeIsOnePut(cs, id, 0, Zeros(32));
        if Clients.Invalidate(cs, id).0 == Clients.Ok {
          ChangeClientKeepsQuality(cfg, q, s, Clients.Invalidate(cs, id),
                                   Clients.Lookup(cs, id).value.(active := false, hash := Zeros(32)), now, env);
        }
    }
  }

  lemma ReadStepKeepsQuality(cfg: Config, q: Quality, s: State, e: Event, now: int, env: Env)
    requires Inv(cfg, s) && Allowed(cfg, s, e, now, env)
    requires Holds(cfg.limits, q, s.disk, s.live, s.clock)
    requires e.Get? || e.Sweep?
    ensures var s' := Step(cfg, s, e, now, env).0;
            Holds(cfg.limits, NextQuality(cfg, q, s, e, now, env), s'.disk, s'.live, now)
  {
    forall t | t >= now { ViewOfView(s.live, now, t); }
    SameViewsKeepQuality(cfg.limits, q, s.disk, s.live, Step(cfg, s, e, now, env).0.live, s.clock, now);
  }

  lemma PutStepKeepsQuality(cfg: Config, q: Quality, s: State, e: Event, now: int, env: Env)
    requires Inv(cfg, s) && Allowed(cfg, s, e, now, env)
    requires Holds(cfg.limits, q, s.disk, s.live, s.clock)
    requires e.PutEntry?
    ensures var s' := Step(cfg, s, e, now, env).0;
            Holds(cfg.limits, NextQuality(cfg, q, s, e, now, env), s'.disk, s'.live, now)
  {
    var l, x, d, k, v, expires := cfg.limits, s.live, s.disk, e.key, e.value, now + e.ttl;
    if cfg.minTtl <= e.ttl <= cfg.maxTtl && Write(l, x.table, k, v, expires).0 == Ok {
      StepKeepsInv(cfg, s, e, now, env);
      var y, shortened := x.(table := x.table[k := Entry(v, expires)]), Shortens(x.table, k, expires);
      if !shortened {
        SetJournals(l, x, k, v, expires, now);
      }
      SaveKeepsQuality(l, q, x, y, d, Set(k, v, expires), shortened, env, s.clock, now);
    }
  }

  lemma DeleteStepKeepsQuality(cfg: Config, q: Quality, s: State, e: Event, now: int, env: Env)
    requires Inv(cfg, s) && Allowed(cfg, s, e, now, env)
    requires Holds(cfg.limits, q, s.disk, s.live, s.clock)
    requires e.DeleteKey? || e.DeleteAll?
    ensures var s' := Step(cfg, s, e, now, env).0;
            Holds(cfg.limits, NextQuality(cfg, q, s, e, now, env), s'.disk, s'.live, now)
  {
    var l, x, d := cfg.limits, s.live, s.disk;
    StepKeepsInv(cfg, s, e, now, env);
    var y := Step(cfg, s, e, now, env).0.live;
    if e.DeleteAll? {
      PurgeAllJournals(l, x, now);
      SaveKeepsQuality(l, q, x, y, d, Record.PurgeAll, false, env, s.clock, now);
    } else if e.key in x.table {
      RemoveJournals(l, x, e.key, now);
      SaveKeepsQuality(l, q, x, y, d, Remove(e.key), false, env, s.clock, now);
    }
  }

  lemma DeleteKeysStepKeepsQuality(cfg: Config, q: Quality, s: State, keys: seq<Key>, now: int, env: Env)
    requires Inv(cfg, s) && Allowed(cfg, s, DeleteKeys(keys), now, env)
    requires Holds(cfg.limits, q, s.disk, s.live, s.clock)
    ensures var s' := Step(cfg, s, DeleteKeys(keys), now, env).0;
            Holds(cfg.limits, NextQuality(cfg, q, s, DeleteKeys(keys), now, env), s'.disk, s'.live, now)
  {
    var l, x, p := cfg.limits, s.live, Purge(s.live.table, s.disk, false, 0);
    StepKeepsInv(cfg, s, DeleteKeys(keys), now, env);
    if !PurgeFrom(p, keys, 0, env).failed {
      SameViewsKeepQuality(l, q, s.disk, x, x, s.clock, now);
      PurgeKeepsQuality(l, q, x, p, keys, 0, env, now);
    } else if env.checkpoint == Complete {
      CompleteCheckpointIsExactBelow4GiB(l, Step(cfg, s, DeleteKeys(keys), now, env).0.live,
                                         PurgeFrom(p, keys, 0, env).disk, env, now);
    }
  }

  lemma FileStepKeepsQuality(cfg: Config, q: Quality, s: State, e: Event, now: int, env: Env)
    requires Inv(cfg, s) && Allowed(cfg, s, e, now, env)
    requires Holds(cfg.limits, q, s.disk, s.live, s.clock)
    requires e.Export? || e.ImportImage? || e.Shutdown? || e.Restart?
    ensures var s' := Step(cfg, s, e, now, env).0;
            Holds(cfg.limits, NextQuality(cfg, q, s, e, now, env), s'.disk, s'.live, now)
  {
    var l, x, d := cfg.limits, s.live, s.disk;
    StepKeepsInv(cfg, s, e, now, env);
    var s' := Step(cfg, s, e, now, env).0;
    match e {
      case Export(hasRoom, _) =>
        if hasRoom { CheckpointKeepsQuality(l, q, x, d, env, s.clock, now); }
      case Shutdown => CheckpointKeepsQuality(l, q, x, d, env, s.clock, now);
      case ImportImage(image) =>
        if image.Some? && Replay(l, EMPTY, ImageRecords(image.value), now).Some? && env.checkpoint == Complete {
          CompleteCheckpointIsExactBelow4GiB(l, s'.live, d, env, now);
        }
      case Restart =>
        if Load(l, d, now).Some? {
          if q != Lost {
            if q == Exact { ReproducesDescribes(l, d, x, s.clock); }
            DescribedLoadsAreRight(l, d, x, s.clock, now);
            forall t | t >= now { ViewOfView(x, now, t); }
            SameViewsKeepQuality(l, q, d, x, s'.live, s.clock, now);
          }
        } else if env.checkpoint == Complete {
          CompleteCheckpointIsExactBelow4GiB(l, s'.live, d, env, now);
        }
    }
  }

  datatype Move = Move(event: Event, now: int, env: Env)

  const START: State := State(EMPTY, NO_FILES, 0)

  ghost function Run(cfg: Config, s: State, moves: seq<Move>): State {
    if |moves| == 0 then s
    else
      var m := moves[|moves| - 1];
      Step(cfg, Run(cfg, s, moves[..|moves| - 1]), m.event, m.now, m.env).0
  }

  ghost predicate ValidRun(cfg: Config, s: State, moves: seq<Move>) {
    |moves| > 0 ==>
      var m := moves[|moves| - 1];
      && ValidRun(cfg, s, moves[..|moves| - 1])
      && Allowed(cfg, Run(cfg, s, moves[..|moves| - 1]), m.event, m.now, m.env)
  }

  ghost function RunQuality(cfg: Config, q: Quality, s: State, moves: seq<Move>): Quality {
    if |moves| == 0 then q
    else
      var m := moves[|moves| - 1];
      var front := moves[..|moves| - 1];
      NextQuality(cfg, RunQuality(cfg, q, s, front), Run(cfg, s, front), m.event, m.now, m.env)
  }

  lemma StepKeepsQuality(cfg: Config, q: Quality, s: State, e: Event, now: int, env: Env)
    requires Inv(cfg, s) && Allowed(cfg, s, e, now, env)
    requires Holds(cfg.limits, q, s.disk, s.live, s.clock)
    ensures var s' := Step(cfg, s, e, now, env).0;
            Holds(cfg.limits, NextQuality(cfg, q, s, e, now, env), s'.disk, s'.live, s'.clock)
  {
    if e.RegisterClient? || e.RotateToken? || e.InvalidateToken? {
      ClientStepKeepsQuality(cfg, q, s, e, now, env);
    } else if e.Export? || e.ImportImage? || e.Shutdown? || e.Restart? {
      FileStepKeepsQuality(cfg, q, s, e, now, env);
    } else if e.PutEntry? {
      PutStepKeepsQuality(cfg, q, s, e, now, env);
    } else if e.DeleteKeys? {
      DeleteKeysStepKeepsQuality(cfg, q, s, e.keys, now, env);
    } else if e.DeleteKey? || e.DeleteAll? {
      DeleteStepKeepsQuality(cfg, q, s, e, now, env);
    } else {
      ReadStepKeepsQuality(cfg, q, s, e, now, env);
    }
  }

  lemma {:induction false} RunKeepsQuality(cfg: Config, q: Quality, s: State, moves: seq<Move>)
    requires Inv(cfg, s) && Holds(cfg.limits, q, s.disk, s.live, s.clock) && ValidRun(cfg, s, moves)
    ensures var r := Run(cfg, s, moves);
            Inv(cfg, r) && Holds(cfg.limits, RunQuality(cfg, q, s, moves), r.disk, r.live, r.clock)
  {
    if |moves| > 0 {
      var front, m := moves[..|moves| - 1], moves[|moves| - 1];
      RunKeepsQuality(cfg, q, s, front);
      StepKeepsInv(cfg, Run(cfg, s, front), m.event, m.now, m.env);
      StepKeepsQuality(cfg, RunQuality(cfg, q, s, front), Run(cfg, s, front), m.event, m.now, m.env);
    }
  }

  /** A server started without files is in step with them. */
  lemma StartIsExact(cfg: Config)
    requires ConfigOk(cfg)
    ensures Inv(cfg, START) && Holds(cfg.limits, Exact, START.disk, START.live, START.clock)
  {
    EmptyWellFormed(cfg.limits);
    assert Log(NO_FILES) == [];
  }

  /** The step gets as far as trying a checkpoint. */
  ghost predicate TriesCheckpoint(cfg: Config, s: State, e: Event, now: int, env: Env) {
    var l, x := cfg.limits, s.live;
    match e
    case Get(_) => false
    case Sweep => false
    case PutEntry(k, v, ttl) =>
      cfg.minTtl <= ttl <= cfg.maxTtl && Write(l, x.table, k, v, now + ttl).0 == Ok && env.append(0) != Appended
    case DeleteKey(k) => k in x.table && env.append(0) != Appended
    case DeleteKeys(keys) => PurgeFrom(Purge(x.table, s.disk, false, 0), keys, 0, env).failed
    case DeleteAll => env.append(0) != Appended
    case RegisterClient(id, role, hash) =>
      Clients.Register(x.clients, id, role, hash).0 == Clients.Ok && env.append(0) != Appended
    case RotateToken(id, hash) => Clients.Rotate(x.clients, id, hash).0 == Clients.Ok && env.append(0) != Appended
    case InvalidateToken(id) => Clients.Invalidate(x.clients, id).0 == Clients.Ok && env.append(0) != Appended
    case Export(hasRoom, _) => hasRoom
    case ImportImage(image) => image.Some? && Replay(l, EMPTY, ImageRecords(image.value), now).Some?
    case Shutdown => true
    case Restart => Load(l, s.disk, now).None?
  }

  /** Whatever the outcome of a checkpoint would have been, a step that tries none does not depend on it. */
  lemma UntriedCheckpointsDoNotMatter(cfg: Config, s: State, e: Event, now: int, env: Env, outcome: CheckpointOutcome)
    requires !TriesCheckpoint(cfg, s, e, now, env)
    ensures Step(cfg, s, e, now, env.(checkpoint := outcome, listing := [])) == Step(cfg, s, e, now, env)
  {
    if e.DeleteKeys? {
      var other := env.(checkpoint := outcome, listing := []);
      PurgeIgnoresListing(Purge(s.live.table, s.disk, false, 0), e.keys, 0, env, other);
    }
  }

  /**
   Every checkpoint that is tried completes with less than 4 GiB and no overwrite shortens a life;
   appends may fail as they like.
   */
  ghost predicate Dependable(cfg: Config, s: State, moves: seq<Move>) {
    |moves| > 0 ==>
      var m, front := moves[|moves| - 1], moves[..|moves| - 1];
      && Dependable(cfg, s, front)
      && (TriesCheckpoint(cfg, Run(cfg, s, front), m.event, m.now, m.env) ==>
            m.env.checkpoint == Complete && WritesLoadable(Run(cfg, s, moves).live, m.env))
      && (m.event.PutEntry? ==> !Shortens(Run(cfg, s, front).live.table, m.event.key, m.now + m.event.ttl))
  }

  /** Such a run never loses the claim, even if it leaves torn records behind on the way. */
  lemma {:induction false} DependableRunsStayExact(cfg: Config, s: State, moves: seq<Move>)
    requires Dependable(cfg, s, moves)
    ensures RunQuality(cfg, Exact, s, moves) == Exact
  {
    if |moves| > 0 {
      DependableRunsStayExact(cfg, s, moves[..|moves| - 1]);
    }
  }

  /**
   Restart refinement. In every run, with requests, sweeps, failing writes and restarts in any
   order: while the claim is `Exact`, a load at any later time succeeds and returns exactly the live
   entries that are still unexpired and the client records in order; while it is `Safe`, a load that
   succeeds returns the same.
   */
  lemma RestartRefinement(cfg: Config, q: Quality, s: State, moves: seq<Move>, t: int)
    requires Inv(cfg, s) && Holds(cfg.limits, q, s.disk, s.live, s.clock)
    requires ValidRun(cfg, s, moves) && t >= Run(cfg, s, moves).clock
    ensures var r := Run(cfg, s, moves);
            var want := Live(Active(r.live.table, t), r.live.clients);
            && (RunQuality(cfg, q, s, moves) == Exact ==> Load(cfg.limits, r.disk, t) == Some(want))
            && (RunQuality(cfg, q, s, moves) == Safe ==> Load(cfg.limits, r.disk, t) in {None, Some(want)})
  {
    var r := Run(cfg, s, moves);
    RunKeepsQuality(cfg, q, s, moves);
    if RunQuality(cfg, q, s, moves) == Safe {
      DescribedLoadsAreRight(cfg.limits, r.disk, r.live, r.clock, t);
    }
  }
}
