/**
 Replaying the journal goes through the states the store went through: while the files are exact,
 every prefix of the journal replays to the view of the live state right after that record's operation,
 so no point of a start needs more memory than the store needed then.
 */
module Pacing {
  import opened Bytes
  import opened CacheTable
  import opened Recovery
  import opened Machine
  import opened Durability
  import Clients

  function Base(d: Disk): seq<Record> {
    if d.checkpoint.Some? then ImageRecords(d.checkpoint.value) else []
  }

  /** `h[n]` is the live state after the operation of journal record `n`, and `h[0]` the one the checkpoint recorded. */
  ghost predicate Paced(l: Limits, d: Disk, h: seq<Live>, now: int) {
    && |h| == |d.journal| + 1 && d.tear == None && CheckpointReadable(d)
    && (forall n, t :: 0 <= n < |h| && t >= now ==>
          Replay(l, EMPTY, Base(d) + d.journal[..n], t) == Some(View(h[n], t)))
    && forall n :: 0 <= n < |h| ==> TotalCost(h[n].table) <= l.memory
  }

  lemma AppendKeepsPace(l: Limits, d: Disk, h: seq<Live>, x: Live, y: Live, r: Record, before: int, now: int)
    requires Paced(l, d, h, before) && Reproduces(l, d, x, before) && before <= now
    requires Journals(l, x, r, y, now) && TotalCost(y.table) <= l.memory
    ensures Paced(l, Append(d, r, Appended), h + [y], now)
  {
    var d' := Append(d, r, Appended);
    forall n, t | 0 <= n < |h + [y]| && t >= now
      ensures Replay(l, EMPTY, Base(d') + d'.journal[..n], t) == Some(View((h + [y])[n], t))
    {
      if n < |h| {
        assert d'.journal[..n] == d.journal[..n];
        assert Replay(l, EMPTY, Base(d) + d.journal[..n], t) == Some(View(h[n], t));
      } else {
        var log := Base(d') + d'.journal[..n];
        assert log[..|log| - 1] == Log(d) && log[|log| - 1] == r;
        assert Load(l, d, t) == Some(View(x, t));
        assert Apply(l, View(x, t), r, t) == Some(View(y, t));
      }
    }
  }

  lemma CheckpointSetsThePace(l: Limits, x: Live, d: Disk, env: Env, now: int)
    requires WellFormed(l, x) && now >= 0 && Lists(env.listing, Active(x.table, now))
    requires env.checkpoint == Complete && WritesLoadable(x, env)
    ensures Paced(l, Checkpoint(x, d, env).0, [x], now)
  {
    var d' := Checkpoint(x, d, env).0;
    forall n, t | 0 <= n < 1 && t >= now
      ensures Replay(l, EMPTY, Base(d') + d'.journal[..n], t) == Some(View([x][n], t))
    {
      ImageLoads(l, env.listing, x, now, t);
      assert Base(d') + d'.journal[..n] == Base(d');
    }
  }

  // ---------------------------------------------------------------- the history of a run

  function SavedHistory(h: seq<Live>, y: Live, env: Env): seq<Live> {
    if env.append(0) == Appended || (env.append(0) == Unconfirmed && env.checkpoint != Complete) then h + [y] else [y]
  }

  function CheckpointHistory(h: seq<Live>, x: Live, env: Env): seq<Live> {
    if env.checkpoint == Complete then [x] else h
  }

  /** The states a purge of listed keys goes through, one for each key it removes. */
  function PurgedStates(x: Live, keys: seq<Key>, i: nat): seq<Live>
    requires i <= |keys|
    decreases |keys| - i
  {
    if i == |keys| then []
    else if keys[i] !in x.table then PurgedStates(x, keys, i + 1)
    else
      var y := x.(table := x.table - {keys[i]});
      [y] + PurgedStates(y, keys, i + 1)
  }

  /** The live states after the checkpoint and after each record that followed it, as long as the claim is `Exact`. */
  ghost function NextHistory(cfg: Config, h: seq<Live>, s: State, e: Event, now: int, env: Env): seq<Live> {
    var l, x, d, y := cfg.limits, s.live, s.disk, Step(cfg, s, e, now, env).0.live;
    match e
    case Get(_) => h
    case Sweep => h
    case PutEntry(k, v, ttl) =>
      if !(cfg.minTtl <= ttl <= cfg.maxTtl) || Write(l, x.table, k, v, now + ttl).0 != Ok then h
      else SavedHistory(h, y, env)
    case DeleteKey(k) => if k in x.table then SavedHistory(h, y, env) else h
    case DeleteKeys(keys) =>
      if PurgeFrom(Purge(x.table, d, false, 0), keys, 0, env).failed then [y] else h + PurgedStates(x, keys, 0)
    case DeleteAll => SavedHistory(h, y, env)
    case RegisterClient(id, role, hash) =>
      if Clients.Register(x.clients, id, role, hash).0 == Clients.Ok then SavedHistory(h, y, env) else h
    case RotateToken(id, hash) =>
      if Clients.Rotate(x.clients, id, hash).0 == Clients.Ok then SavedHistory(h, y, env) else h
    case InvalidateToken(id) => if Clients.Invalidate(x.clients, id).0 == Clients.Ok then SavedHistory(h, y, env) else h
    case Export(hasRoom, _) => if hasRoom then CheckpointHistory(h, x, env) else h
    case ImportImage(image) =>
      if image.Some? && Replay(l, EMPTY, ImageRecords(image.value), now).Some? then [y] else h
    case Shutdown => CheckpointHistory(h, x, env)
    case Restart => if Load(l, d, now).Some? then h else [y]
  }

  ghost function RunHistory(cfg: Config, h: seq<Live>, s: State, moves: seq<Move>): seq<Live> {
    if |moves| == 0 then h
    else
      var m, front := moves[|moves| - 1], moves[..|moves| - 1];
      NextHistory(cfg, RunHistory(cfg, h, s, front), Run(cfg, s, front), m.event, m.now, m.env)
  }

  // ---------------------------------------------------------------- every step keeps the pace

  lemma PacedLater(l: Limits, d: Disk, h: seq<Live>, before: int, now: int)
    requires Paced(l, d, h, before) && before <= now
    ensures Paced(l, d, h, now)
  {
  }

  lemma SaveKeepsPace(l: Limits, q: Quality, h: seq<Live>, x: Live, y: Live, d: Disk, r: Record, shortened: bool,
        env: Env, before: int, now: int)
    requires q == Exact ==> Paced(l, d, h, before) && Reproduces(l, d, x, before)
    requires 0 <= before <= now && WellFormed(l, y) && Lists(env.listing, Active(y.table, now))
    requires !shortened ==> Journals(l, x, r, y, now)
    requires SavedQuality(q, y, env, shortened) == Exact
    ensures Paced(l, Save(y, d, r, env).0, SavedHistory(h, y, env), now)
  {
    hide Paced, Reproduces, Journals;
    var d' := Append(d, r, env.append(0));
    if env.append(0) == Appended || (env.append(0) == Unconfirmed && env.checkpoint != Complete) {
      AppendKeepsPace(l, d, h, x, y, r, before, now);
      assert d' == Append(d, r, Appended);
    } else {
      CheckpointSetsThePace(l, y, d', env, now);
    }
  }

  lemma {:induction false} PurgeKeepsPace(l: Limits, h: seq<Live>, x: Live, p: Purge, keys: seq<Key>, i: nat, env: Env,
      now: int)
    requires i <= |keys| && !p.failed && x.table == p.table && TotalCost(x.table) <= l.memory
    requires Paced(l, p.disk, h, now) && Reproduces(l, p.disk, x, now)
    ensures var r := PurgeFrom(p, keys, i, env); !r.failed ==> Paced(l, r.disk, h + PurgedStates(x, keys, i), now)
    decreases |keys| - i
  {
    hide Paced, Reproduces;
    if i == |keys| {
      assert h + [] == h;
    } else if keys[i] !in p.table {
      PurgeKeepsPace(l, h, x, p, keys, i + 1, env, now);
    } else {
      var k := keys[i];
      var y := x.(table := p.table - {k});
      var next := Purge(y.table, Append(p.disk, Remove(k), env.append(i)), env.append(i) != Appended, p.purged + 1);
      if next.failed {
        FailedPurgeStaysFailed(next, keys, i + 1, env);
      } else {
        RemoveJournals(l, x, k, now);
        TotalCostRemove(x.table, k);
        AppendKeepsPace(l, p.disk, h, x, y, Remove(k), now, now);
        AppendKeepsQuality(l, Exact, x, y, p.disk, Remove(k), now, now);
        assert Reproduces(l, Append(p.disk, Remove(k), Appended), y, now);
        PurgeKeepsPace(l, h + [y], y, next, keys, i + 1, env, now);
        assert h + [y] + PurgedStates(y, keys, i + 1) == h + PurgedStates(x, keys, i);
      }
    }
  }

  ghost predicate InPace(cfg: Config, q: Quality, h: seq<Live>, s: State) {
    q == Exact ==> Paced(cfg.limits, s.disk, h, s.clock)
  }

  lemma ClientStepKeepsPace(cfg: Config, q: Quality, h: seq<Live>, s: State, e: Event, now: int, env: Env)
    requires Inv(cfg, s) && Allowed(cfg, s, e, now, env) && Holds(cfg.limits, q, s.disk, s.live, s.clock)
             && InPace(cfg, q, h, s)
    requires e.RegisterClient? || e.RotateToken? || e.InvalidateToken?
    requires NextQuality(cfg, q, s, e, now, env) == Exact
    ensures Paced(cfg.limits, Step(cfg, s, e, now, env).0.disk, NextHistory(cfg, h, s, e, now, env), now)
  {
    var cs := s.live.clients;
    match e {
      case RegisterClient(id, role, hash) =>
        Clients.ChangeIsOnePut(cs, id, role, hash);
        ClientChangeKeepsPace(cfg, q, h, s, e, Clients.Register(cs, id, role, hash), id,
            Clients.Client(id, role, true, hash), now, env);
      case RotateToken(id, hash) =>
        Clients.ChangeIsOnePut(cs, id, 0, hash);
        if Clients.Rotate(cs, id, hash).0 == Clients.Ok {
          ClientChangeKeepsPace(cfg, q, h, s, e, Clients.Rotate(cs, id, hash), id,
                                Clients.Lookup(cs, id).value.(active := true, hash := hash), now, env);
        } else {
          PacedLater(cfg.limits, s.disk, h, s.clock, now);
        }
      case InvalidateToken(id) =>
        Clients.ChangeIsOnePut(cs, id, 0, Zeros(32));
        if Clients.Invalidate(cs, id).0 == Clients.Ok {
          ClientChangeKeepsPace(cfg, q, h, s, e, Clients.Invalidate(cs, id), id,
                                Clients.Lookup(cs, id).value.(active := false, hash := Zeros(32)), now, env);
        } else {
          PacedLater(cfg.limits, s.disk, h, s.clock, now);
        }
    }
  }

  lemma ClientChangeKeepsPace(cfg: Config, q: Quality, h: seq<Live>, s: State, e: Event,
                              w: (Clients.Status, seq<Clients.Client>), id: seq<byte>, c: Clients.Client,
                              now: int, env: Env)
    requires Inv(cfg, s) && Allowed(cfg, s, e, now, env) && Holds(cfg.limits, q, s.disk, s.live, s.clock)
             && InPace(cfg, q, h, s)
    requires Step(cfg, s, e, now, env) == ChangeClient(s, w, id, now, env) && c.id == id
    requires w.0 == Clients.Ok ==> w.1 == Clients.Put(s.live.clients, c)
    requires (if w.0 == Clients.Ok then SavedQuality(q, Step(cfg, s, e, now, env).0.live, env, false) else q) == Exact
    ensures Paced(cfg.limits, Step(cfg, s, e, now, env).0.disk,
                  if w.0 == Clients.Ok then SavedHistory(h, Step(cfg, s, e, now, env).0.live, env) else h, now)
  {
    hide Paced;
    StepKeepsInv(cfg, s, e, now, env);
    if w.0 != Clients.Ok {
      PacedLater(cfg.limits, s.disk, h, s.clock, now);
    } else {
      hide Step, Inv, Reproduces, Journals;
      NewClientJournals(cfg, s, w, c, now, env);
      SaveKeepsPace(cfg.limits, q, h, s.live, s.live.(clients := w.1), s.disk, Upsert(c), false, env, s.clock, now);
    }
  }

  lemma NewClientJournals(cfg: Config, s: State, w: (Clients.Status, seq<Clients.Client>), c: Clients.Client, now: int,
      env: Env)
    requires Inv(cfg, s) && Inv(cfg, ChangeClient(s, w, c.id, now, env).0)
    requires w.0 == Clients.Ok && w.1 == Clients.Put(s.live.clients, c)
    ensures Clients.Lookup(w.1, c.id) == Some(c) && WellFormed(cfg.limits, s.live.(clients := w.1)) && s.clock >= 0
    ensures Journals(cfg.limits, s.live, Upsert(c), s.live.(clients := w.1), now)
  {
    Clients.PutLookup(s.live.clients, c, c.id);
    assert ChangeClient(s, w, c.id, now, env).0.live == s.live.(clients := w.1);
    assert Clients.WellFormedClient(w.1[Clients.IndexOf(w.1, c.id)]);
    assert |w.1| <= Clients.MAX_CLIENTS;
    UpsertJournals(cfg.limits, s.live, c, now);
  }

  lemma TableStepKeepsPace(cfg: Config, q: Quality, h: seq<Live>, s: State, e: Event, now: int, env: Env)
    requires Inv(cfg, s) && Allowed(cfg, s, e, now, env) && Holds(cfg.limits, q, s.disk, s.live, s.clock)
             && InPace(cfg, q, h, s)
    requires e.PutEntry? || e.DeleteKey? || e.DeleteAll?
    requires NextQuality(cfg, q, s, e, now, env) == Exact
    ensures Paced(cfg.limits, Step(cfg, s, e, now, env).0.disk, NextHistory(cfg, h, s, e, now, env), now)
  {
    hide Paced, Reproduces, Journals;
    var l, x, d := cfg.limits, s.live, s.disk;
    StepKeepsInv(cfg, s, e, now, env);
    var y := Step(cfg, s, e, now, env).0.live;
    if q == Exact {
      PacedLater(l, d, h, s.clock, now);
    }
    if e.DeleteAll? {
      PurgeAllJournals(l, x, now);
      SaveKeepsPace(l, q, h, x, y, d, Record.PurgeAll, false, env, s.clock, now);
    } else if e.DeleteKey? {
      if e.key in x.table {
        RemoveJournals(l, x, e.key, now);
        SaveKeepsPace(l, q, h, x, y, d, Remove(e.key), false, env, s.clock, now);
      }
    } else if cfg.minTtl <= e.ttl <= cfg.maxTtl && Write(l, x.table, e.key, e.value, now + e.ttl).0 == Ok {
      var shortened := Shortens(x.table, e.key, now + e.ttl);
      if !shortened {
        SetJournals(l, x, e.key, e.value, now + e.ttl, now);
      }
      SaveKeepsPace(l, q, h, x, y, d, Set(e.key, e.value, now + e.ttl), shortened, env, s.clock, now);
    }
  }

  lemma FileStepKeepsPace(cfg: Config, q: Quality, h: seq<Live>, s: State, e: Event, now: int, env: Env)
    requires Inv(cfg, s) && Allowed(cfg, s, e, now, env) && Holds(cfg.limits, q, s.disk, s.live, s.clock)
             && InPace(cfg, q, h, s)
    requires e.Export? || e.ImportImage? || e.Shutdown? || e.Restart? || e.Get? || e.Sweep?
    requires NextQuality(cfg, q, s, e, now, env) == Exact
    ensures Paced(cfg.limits, Step(cfg, s, e, now, env).0.disk, NextHistory(cfg, h, s, e, now, env), now)
  {
    hide Paced, Reproduces, Replay;
    var l, d := cfg.limits, s.disk;
    StepKeepsInv(cfg, s, e, now, env);
    var y := Step(cfg, s, e, now, env).0.live;
    if q == Exact {
      PacedLater(l, d, h, s.clock, now);
    }
    if env.checkpoint == Complete && WritesLoadable(y, env) {
      CheckpointSetsThePace(l, y, d, env, now);
    }
  }

  lemma DeleteKeysKeepsPace(cfg: Config, q: Quality, h: seq<Live>, s: State, keys: seq<Key>, now: int, env: Env)
    requires Inv(cfg, s) && Allowed(cfg, s, DeleteKeys(keys), now, env)
    requires Holds(cfg.limits, q, s.disk, s.live, s.clock) && InPace(cfg, q, h, s)
    requires NextQuality(cfg, q, s, DeleteKeys(keys), now, env) == Exact
    ensures Paced(cfg.limits, Step(cfg, s, DeleteKeys(keys), now, env).0.disk,
            NextHistory(cfg, h, s, DeleteKeys(keys), now, env), now)
  {
    hide Paced;
    var l, x, p := cfg.limits, s.live, Purge(s.live.table, s.disk, false, 0);
    StepKeepsInv(cfg, s, DeleteKeys(keys), now, env);
    var r := PurgeFrom(p, keys, 0, env);
    if r.failed {
      CheckpointSetsThePace(l, Step(cfg, s, DeleteKeys(keys), now, env).0.live, r.disk, env, now);
    } else {
      PacedLater(l, s.disk, h, s.clock, now);
      SameViewsKeepQuality(l, Exact, s.disk, x, x, s.clock, now);
      PurgeKeepsPace(l, h, x, p, keys, 0, env, now);
    }
  }

  lemma StepKeepsPace(cfg: Config, q: Quality, h: seq<Live>, s: State, e: Event, now: int, env: Env)
    requires Inv(cfg, s) && Allowed(cfg, s, e, now, env) && Holds(cfg.limits, q, s.disk, s.live, s.clock)
             && InPace(cfg, q, h, s)
    ensures InPace(cfg, NextQuality(cfg, q, s, e, now, env), NextHistory(cfg, h, s, e, now, env),
                   Step(cfg, s, e, now, env).0)
  {
    hide NextQuality, NextHistory, Paced, Inv, Holds;
    if NextQuality(cfg, q, s, e, now, env) == Exact {
      ClockIsNow(cfg, s, e, now, env);
      hide Step, Allowed;
      if e.RegisterClient? || e.RotateToken? || e.InvalidateToken? {
        ClientStepKeepsPace(cfg, q, h, s, e, now, env);
      } else if e.DeleteKeys? {
        DeleteKeysKeepsPace(cfg, q, h, s, e.keys, now, env);
      } else if e.PutEntry? || e.DeleteKey? || e.DeleteAll? {
        TableStepKeepsPace(cfg, q, h, s, e, now, env);
      } else {
        FileStepKeepsPace(cfg, q, h, s, e, now, env);
      }
    }
  }

  lemma ClockIsNow(cfg: Config, s: State, e: Event, now: int, env: Env)
    ensures Step(cfg, s, e, now, env).0.clock == now
  {
  }

  lemma {:induction false} RunKeepsPace(cfg: Config, h: seq<Live>, s: State, moves: seq<Move>)
    requires Inv(cfg, s) && Reproduces(cfg.limits, s.disk, s.live, s.clock) && Paced(cfg.limits, s.disk, h, s.clock)
    requires ValidRun(cfg, s, moves)
    ensures InPace(cfg, RunQuality(cfg, Exact, s, moves), RunHistory(cfg, h, s, moves), Run(cfg, s, moves))
  {
    hide Paced, Reproduces, Step, Inv, NextQuality, NextHistory;
    if |moves| > 0 {
      var front, m := moves[..|moves| - 1], moves[|moves| - 1];
      RunKeepsPace(cfg, h, s, front);
      RunKeepsQuality(cfg, Exact, s, front);
      var q, past := RunQuality(cfg, Exact, s, front), RunHistory(cfg, h, s, front);
      StepKeepsPace(cfg, q, past, Run(cfg, s, front), m.event, m.now, m.env);
    }
  }

  lemma StartIsPaced(cfg: Config)
    requires ConfigOk(cfg)
    ensures Paced(cfg.limits, START.disk, [EMPTY], START.clock)
  {
    assert Base(NO_FILES) + NO_FILES.journal[..0] == [];
  }

  /**
   Over every run of a service started without files, while the claim is `Exact`: at any later time each
   prefix of the journal replays, to the unexpired part of the state the store was in right after that
   record's operation, and so needs no more memory than the store needed then.
   */
  lemma ReplayedPrefixesCostNoMoreThanTheStoreDid(cfg: Config, moves: seq<Move>, n: nat, t: int)
    requires ConfigOk(cfg) && ValidRun(cfg, START, moves) && RunQuality(cfg, Exact, START, moves) == Exact
    requires n <= |Run(cfg, START, moves).disk.journal| && t >= Run(cfg, START, moves).clock
    ensures var d, h := Run(cfg, START, moves).disk, RunHistory(cfg, [EMPTY], START, moves);
            && |h| == |d.journal| + 1
            && var z := Replay(cfg.limits, EMPTY, Base(d) + d.journal[..n], t);
               && z == Some(View(h[n], t))
               && TotalCost(z.value.table) <= TotalCost(h[n].table) <= cfg.limits.memory
  {
    StartIsExact(cfg);
    StartIsPaced(cfg);
    hide Run, RunQuality, RunHistory;
    RunKeepsPace(cfg, [EMPTY], START, moves);
    var d, h := Run(cfg, START, moves).disk, RunHistory(cfg, [EMPTY], START, moves);
    assert Paced(cfg.limits, d, h, Run(cfg, START, moves).clock);
    TotalCostMonotone(Active(h[n].table, t), h[n].table);
  }
}
