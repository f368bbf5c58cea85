/**
 What reads return, in terms of the requests alone: over every run, with sweeps, failing writes, crashes
 and restarts, the unexpired entries are those of a plain map that follows the requests that took effect.
 */
module ReadBack {
  import opened Bytes
  import opened CacheTable
  import opened Recovery
  import opened Machine
  import opened Durability
  import CrashPoints
  import Pacing
  import Purging

  /** A map that follows one request; `status` is its answer. */
  ghost function Follow(l: Limits, m: Table, e: Event, status: nat, now: int): Table {
    match e
    case PutEntry(k, v, ttl) => if status in {200, 500} then m[k := Entry(v, now + ttl)] else m
    case DeleteKey(k) => m - {k}
    case DeleteKeys(keys) => m - set i | 0 <= i < |keys| :: keys[i]
    case DeleteAll => map[]
    case ImportImage(image) =>
      var loaded := if image.None? then None else Replay(l, EMPTY, ImageRecords(image.value), now);
      if loaded.Some? then loaded.value.table else m
    case _ => m
  }

  ghost function FollowAll(cfg: Config, m: Table, s: State, moves: seq<Move>): Table {
    if |moves| == 0 then m
    else
      var front, last := moves[..|moves| - 1], moves[|moves| - 1];
      var status := Step(cfg, Run(cfg, s, front), last.event, last.now, last.env).1;
      Follow(cfg.limits, FollowAll(cfg, m, s, front), last.event, status, last.now)
  }

  /** Every start of the run loads, with a claim about the files that has not been lost. */
  ghost predicate StartsLoad(cfg: Config, q: Quality, s: State, moves: seq<Move>) {
    |moves| > 0 ==>
      var front, last := moves[..|moves| - 1], moves[|moves| - 1];
      && StartsLoad(cfg, q, s, front)
      && (last.event.Restart? ==>
            RunQuality(cfg, q, s, front) != Lost && Load(cfg.limits, Run(cfg, s, front).disk, last.now).Some?)
  }

  /** A reader cannot tell the table from the map. */
  ghost predicate ReadsAlike(table: Table, m: Table, now: int) {
    forall t :: t >= now ==> Active(table, t) == Active(m, t)
  }

  lemma LoadingStartReadsAlike(l: Limits, q: Quality, d: Disk, x: Live, before: int, now: int)
    requires Holds(l, q, d, x, before) && q != Lost && before <= now && Load(l, d, now).Some?
    ensures Load(l, d, now).value == View(x, now)
  {
    if q == Safe {
      ReplayComputesEffects(l, EMPTY, Log(d), now);
    }
  }

  lemma PurgedTable(x: Live, d: Disk, keys: seq<Key>, env: Env)
    ensures PurgeFrom(Purge(x.table, d, false, 0), keys, 0, env).table == x.table - set i | 0 <= i < |keys| :: keys[i]
  {
    Purging.PurgeFromIsDone(x.table, Purge(x.table, d, false, 0), keys, 0, env);
  }

  lemma ViewsAgreeAfterRead(table: Table, k: Key, now: int)
    ensures ReadsAlike(CacheTable.Get(table, k, now).1, table, now) && ReadsAlike(Active(table, now), table, now)
  {
    forall t | t >= now
      ensures Active(CacheTable.Get(table, k, now).1, t) == Active(table, t)
      ensures Active(Active(table, now), t) == Active(table, t)
    {
    }
  }

  /** What a step makes of the table. */
  lemma TableAfterStep(cfg: Config, q: Quality, s: State, e: Event, now: int, env: Env)
    requires Holds(cfg.limits, q, s.disk, s.live, s.clock) && s.clock <= now
    requires e.Restart? ==> q != Lost && Load(cfg.limits, s.disk, now).Some?
    ensures var r := Step(cfg, s, e, now, env);
            ReadsAlike(r.0.live.table, Follow(cfg.limits, s.live.table, e, r.1, now), now)
  {
    hide Replay, Load, Save, Checkpoint, PurgeFrom, Holds;
    match e {
      case Get(k) => ViewsAgreeAfterRead(s.live.table, k, now);
      case Sweep => ViewsAgreeAfterRead(s.live.table, [], now);
      case DeleteKey(k) => assert k !in s.live.table ==> s.live.table - {k} == s.live.table;
      case DeleteKeys(keys) => PurgedTable(s.live, s.disk, keys, env);
      case Restart =>
        LoadingStartReadsAlike(cfg.limits, q, s.disk, s.live, s.clock, now);
        ViewsAgreeAfterRead(s.live.table, [], now);
      case _ =>
    }
  }

  lemma WrittenAlike(a: Table, b: Table, k: Key, e: Entry, t: int)
    requires Active(a, t) == Active(b, t)
    ensures Active(a[k := e], t) == Active(b[k := e], t)
  {
    var c, d := Active(a[k := e], t), Active(b[k := e], t);
    forall j | j in c || j in d
      ensures j in c && j in d && c[j] == d[j]
    {
      assert j in Active(a, t) <==> j in Active(b, t);
      assert j in Active(a, t) ==> Active(a, t)[j] == Active(b, t)[j];
    }
  }

  lemma DroppedAlike(a: Table, b: Table, keys: set<Key>, t: int)
    requires Active(a, t) == Active(b, t)
    ensures Active(a - keys, t) == Active(b - keys, t)
  {
    assert Active(a - keys, t) == Active(a, t) - keys;
    assert Active(b - keys, t) == Active(b, t) - keys;
  }

  lemma FollowReadsAlike(l: Limits, a: Table, b: Table, e: Event, status: nat, before: int, now: int)
    requires ReadsAlike(a, b, before) && before <= now
    ensures ReadsAlike(Follow(l, a, e, status, now), Follow(l, b, e, status, now), now)
  {
    hide Replay;
    forall t | t >= now
      ensures Active(Follow(l, a, e, status, now), t) == Active(Follow(l, b, e, status, now), t)
    {
      assert Active(a, t) == Active(b, t);
      match e {
        case PutEntry(k, v, ttl) => WrittenAlike(a, b, k, Entry(v, now + ttl), t);
        case DeleteKey(k) => DroppedAlike(a, b, {k}, t);
        case DeleteKeys(keys) => DroppedAlike(a, b, set i | 0 <= i < |keys| :: keys[i], t);
        case _ =>
      }
    }
  }

  /** The service as a map: in every run whose starts load, reads see exactly what the requests say. */
  lemma {:induction false} ReadsFollowTheRequests(cfg: Config, q: Quality, s: State, m: Table, moves: seq<Move>)
    requires Inv(cfg, s) && Holds(cfg.limits, q, s.disk, s.live, s.clock) && ReadsAlike(s.live.table, m, s.clock)
    requires ValidRun(cfg, s, moves) && StartsLoad(cfg, q, s, moves)
    ensures var r := Run(cfg, s, moves); ReadsAlike(r.live.table, FollowAll(cfg, m, s, moves), r.clock)
  {
    if |moves| > 0 {
      var front, last := moves[..|moves| - 1], moves[|moves| - 1];
      var r := Run(cfg, s, front);
      ReadsFollowTheRequests(cfg, q, s, m, front);
      RunKeepsQuality(cfg, q, s, front);
      hide Step, Inv, Holds, Follow, Load;
      TableAfterStep(cfg, RunQuality(cfg, q, s, front), r, last.event, last.now, last.env);
      var status := Step(cfg, r, last.event, last.now, last.env).1;
      FollowReadsAlike(cfg.limits, r.live.table, FollowAll(cfg, m, s, front), last.event, status, r.clock, last.now);
      Pacing.ClockIsNow(cfg, r, last.event, last.now, last.env);
    }
  }

  /** While the files are dependable every start loads. */
  lemma {:induction false} DependableStartsLoad(cfg: Config, s: State, moves: seq<Move>)
    requires Inv(cfg, s) && Holds(cfg.limits, Exact, s.disk, s.live, s.clock)
    requires ValidRun(cfg, s, moves) && Dependable(cfg, s, moves)
    ensures StartsLoad(cfg, Exact, s, moves)
  {
    if |moves| > 0 {
      hide Step, TriesCheckpoint, NextQuality;
      var front, last := moves[..|moves| - 1], moves[|moves| - 1];
      var r := Run(cfg, s, front);
      DependableStartsLoad(cfg, s, front);
      DependableRunsStayExact(cfg, s, front);
      RunKeepsQuality(cfg, Exact, s, front);
      assert last.event.Restart? ==> Load(cfg.limits, r.disk, last.now) == Some(View(r.live, last.now));
    }
  }

  // ---------------------------------------------------------------- an entry and the requests that spare it

  /** The request, answered with `status`, does not write, delete, purge or import over the key. */
  ghost predicate Spares(l: Limits, e: Event, status: nat, now: int, k: Key) {
    match e
    case PutEntry(j, _, _) => j != k || status !in {200, 500}
    case DeleteKey(j) => j != k
    case DeleteKeys(keys) => k !in keys
    case DeleteAll => false
    case ImportImage(image) => image.None? || Replay(l, EMPTY, ImageRecords(image.value), now).None?
    case _ => true
  }

  ghost predicate AllSpare(cfg: Config, s: State, moves: seq<Move>, k: Key) {
    |moves| > 0 ==>
      var front, last := moves[..|moves| - 1], moves[|moves| - 1];
      var status := Step(cfg, Run(cfg, s, front), last.event, last.now, last.env).1;
      AllSpare(cfg, s, front, k) && Spares(cfg.limits, last.event, status, last.now, k)
  }

  lemma {:induction false} SparedEntryStays(cfg: Config, m: Table, s: State, moves: seq<Move>, k: Key)
    requires AllSpare(cfg, s, moves, k)
    ensures CrashPoints.AgreeAt(FollowAll(cfg, m, s, moves), m, k)
  {
    if |moves| > 0 {
      SparedEntryStays(cfg, m, s, moves[..|moves| - 1], k);
    }
  }

  /** What a key holds is read back, with its expiry, after any run that spares it and until it expires. */
  lemma SparedEntryIsReadBack(cfg: Config, q: Quality, s: State, moves: seq<Move>, k: Key, t: int)
    requires Inv(cfg, s) && Holds(cfg.limits, q, s.disk, s.live, s.clock)
    requires ValidRun(cfg, s, moves) && StartsLoad(cfg, q, s, moves) && AllSpare(cfg, s, moves, k)
    requires k in s.live.table && Run(cfg, s, moves).clock <= t < s.live.table[k].expires
    ensures CacheTable.Get(Run(cfg, s, moves).live.table, k, t).2 == Some(s.live.table[k])
  {
    var m := s.live.table;
    ReadsFollowTheRequests(cfg, q, s, m, moves);
    SparedEntryStays(cfg, m, s, moves, k);
    hide Run, FollowAll, AllSpare, StartsLoad, ValidRun;
    assert Active(Run(cfg, s, moves).live.table, t) == Active(FollowAll(cfg, m, s, moves), t);
    assert k in Active(FollowAll(cfg, m, s, moves), t);
  }
}
