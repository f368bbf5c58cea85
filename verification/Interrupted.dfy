/**
 Exactly when a replay succeeds, and what follows from it: what files from elsewhere are worth, and, after
 a crash between the rename of a new checkpoint and the removal of the old journal, exactly when the next
 start succeeds and what it finds, for plain checkpoints, replaced states and purges.
 */
module Interrupted {
  import opened Bytes
  import opened CacheTable
  import opened Recovery
  import opened Machine
  import opened Durability
  import opened CrashPoints
  import Clients
  import Purging

  // ---------------------------------------------------------------- when a replay succeeds

  /** No record of the log is refused for its own sake: sizes, ids and roles are acceptable. */
  predicate Acceptable(l: Limits, log: seq<Record>) {
    forall i :: 0 <= i < |log| ==>
      && (log[i].Set? ==> SizesAllowed(l, log[i].key, log[i].value))
      && (log[i].Upsert? ==> Clients.WellFormedClient(log[i].client))
  }

  lemma JournalIsAcceptable(l: Limits, journal: seq<Record>)
    requires JournalOk(l, journal)
    ensures Acceptable(l, journal)
  {
    assert forall i :: 0 <= i < |journal| ==> JournalRecordOk(l, journal[i]);
  }

  /** No record of files the service wrote is refused for its own sake. */
  lemma DiskIsAcceptable(l: Limits, d: Disk)
    requires DiskOk(l, d)
    ensures Acceptable(l, Log(d)) && Acceptable(l, ReadableLog(d))
  {
    JournalIsAcceptable(l, d.journal);
    if d.checkpoint.Some? {
      var image := d.checkpoint.value;
      assert forall i :: 0 <= i < |image.clients| ==> Clients.WellFormedClient(image.clients[i]);
      assert Acceptable(l, EntryRecords(image.entries)) && Acceptable(l, ClientRecords(image.clients));
    }
    assert ReadableLog(d) <= Log(d);
  }

  ghost predicate Room(l: Limits, x: Live) {
    TotalCost(x.table) <= l.memory && |x.clients| <= Clients.MAX_CLIENTS
  }

  /** Every prefix of the log leaves a state within the ceiling and the registry's capacity. */
  ghost predicate StaysWithin(l: Limits, x: Live, log: seq<Record>, t: int) {
    forall n :: 0 <= n <= |log| ==> Room(l, Effects(x, log[..n], t))
  }

  lemma ApplySucceedsExactlyWithRoom(l: Limits, x: Live, r: Record, t: int)
    requires Room(l, x) && Acceptable(l, [r]) && t >= 0
    ensures Apply(l, x, r, t) == if Room(l, Effect(x, r, t)) then Some(Effect(x, r, t)) else None
  {
    assert Acceptable(l, [r]) && [r][0] == r;
    ApplyComputesEffect(l, x, r, t);
    match r {
      case Set(k, v, e) => CostIgnoresExpiry(x.table, k, v, 0, e);
      case Remove(k) => TotalCostRemove(x.table, k);
      case Upsert(c) =>
      case PurgeAll => TotalCostMonotone(map[], x.table);
    }
  }

  /** A replay succeeds exactly when every prefix stays within the limits, and then computes the effects. */
  lemma {:induction false} ReplayExactlyWhenWithin(l: Limits, x: Live, log: seq<Record>, t: int)
    requires Acceptable(l, log) && t >= 0
    requires Room(l, x)
    ensures Replay(l, x, log, t) == if StaysWithin(l, x, log, t) then Some(Effects(x, log, t)) else None
  {
    if |log| == 0 {
      assert forall n :: 0 <= n <= |log| ==> log[..n] == log;
    } else {
      var front, r := log[..|log| - 1], log[|log| - 1];
      ReplayExactlyWhenWithin(l, x, front, t);
      WithinBySteps(l, x, log, t);
      if StaysWithin(l, x, front, t) {
        assert front[..|front|] == front && Room(l, Effects(x, front[..|front|], t));
        ApplySucceedsExactlyWithRoom(l, Effects(x, front, t), r, t);
      }
    }
  }

  lemma WithinBySteps(l: Limits, x: Live, log: seq<Record>, t: int)
    requires |log| > 0
    ensures StaysWithin(l, x, log, t) <==> StaysWithin(l, x, log[..|log| - 1], t) && Room(l, Effects(x, log, t))
  {
    hide Effects, Room;
    var front := log[..|log| - 1];
    assert forall n :: 0 <= n <= |front| ==> front[..n] == log[..n];
    assert log[..|log|] == log;
    if StaysWithin(l, x, log, t) {
      forall n | 0 <= n <= |front|
        ensures Room(l, Effects(x, front[..n], t))
      {
        assert Room(l, Effects(x, log[..n], t));
      }
      assert Room(l, Effects(x, log[..|log|], t));
    }
    if StaysWithin(l, x, front, t) && Room(l, Effects(x, log, t)) {
      forall n | 0 <= n <= |log|
        ensures Room(l, Effects(x, log[..n], t))
      {
        assert n <= |front| ==> Room(l, Effects(x, front[..n], t));
      }
    }
  }

  lemma {:induction false} SetCostsOfEntries(entries: seq<(Key, Entry)>)
    ensures SetCosts(EntryRecords(entries)) == ListingCost(entries)
  {
    if |entries| > 0 {
      var n := |entries| - 1;
      assert EntryRecords(entries)[..n] == EntryRecords(entries[..n]);
      SetCostsOfEntries(entries[..n]);
    }
  }

  lemma {:induction false} EntriesMakeNoClients(x: Live, entries: seq<(Key, Entry)>, n: nat, t: int)
    requires n <= |entries|
    ensures Effects(x, EntryRecords(entries)[..n], t).clients == x.clients
  {
    if n > 0 {
      assert EntryRecords(entries)[..n][..n - 1] == EntryRecords(entries)[..n - 1];
      EntriesMakeNoClients(x, entries, n - 1, t);
    }
  }

  /** Every image a checkpoint writes loads at every time, if it can be read at all. */
  lemma WrittenImageLoads(l: Limits, image: Image, t: int)
    requires ImageOk(l, image) && t >= 0
    ensures Replay(l, EMPTY, ImageRecords(image), t).Some?
  {
    hide Effects, Replay;
    var a, b := EntryRecords(image.entries), ClientRecords(image.clients);
    forall n | 0 <= n <= |a|
      ensures Room(l, Effects(EMPTY, a[..n], t))
    {
      EffectsCostAtMostTheSets(EMPTY, a[..n], t);
      SetCostsOfPrefix(a, n);
      SetCostsOfEntries(image.entries);
      EntriesMakeNoClients(EMPTY, image.entries, n, t);
    }
    assert Room(l, EMPTY) && StaysWithin(l, EMPTY, a, t);
    ReplayExactlyWhenWithin(l, EMPTY, a, t);
    var y := Effects(EMPTY, a, t);
    assert a[..|a|] == a && b[..|b|] == b;
    EntriesMakeNoClients(EMPTY, image.entries, |a|, t);
    ClientsLoad(l, y, image.clients, t, |b|);
    ReplayConcat(l, EMPTY, a, b, t);
  }

  // ---------------------------------------------------------------- starting from files that load

  /** No later load of these files needs more than the limits on its way. */
  ghost predicate AlwaysWithin(l: Limits, d: Disk, now: int) {
    forall t :: t >= now ==> StaysWithin(l, EMPTY, Log(d), t)
  }

  /**
   Files that load now reproduce the loaded state at every later time if and only if no SET in them is
   outlived and no later replay exceeds the limits on its way.
   */
  lemma LoadedFilesReproduceExactlyWhen(l: Limits, d: Disk, y: Live, now: int)
    requires Load(l, d, now) == Some(y) && now >= 0 && Acceptable(l, Log(d))
    ensures Holds(l, Exact, d, y, now) <==>
              (forall k: Key, i: nat :: !Outlived(Log(d), now, k, i)) && AlwaysWithin(l, d, now)
  {
    LoadedFilesDescribeExactlyWhenNothingOutlived(l, d, y, now);
    hide Outlived, StaysWithin, Acceptable;
    assert Room(l, EMPTY);
    forall t | t >= now
      ensures Load(l, d, t) == if StaysWithin(l, EMPTY, Log(d), t) then Some(Effects(EMPTY, Log(d), t)) else None
    {
      ReplayExactlyWhenWithin(l, EMPTY, Log(d), t);
    }
  }

  /** The best claim about files that load now. */
  ghost function LoadedQuality(l: Limits, d: Disk, now: int): Quality {
    if exists k: Key, i: nat :: Outlived(Log(d), now, k, i) then Lost
    else if AlwaysWithin(l, d, now) then Exact else Safe
  }

  /** Runs from a successful load of any files, wherever they come from: what later loads return. */
  lemma RestartRefinementFromALoad(cfg: Config, d: Disk, y: Live, now: int, moves: seq<Move>, t: int)
    requires ConfigOk(cfg) && DiskOk(cfg.limits, d) && now >= 0 && Load(cfg.limits, d, now) == Some(y)
    requires ValidRun(cfg, State(y, d, now), moves) && t >= Run(cfg, State(y, d, now), moves).clock
    ensures var s, q := State(y, d, now), LoadedQuality(cfg.limits, d, now);
            var r := Run(cfg, s, moves);
            && Inv(cfg, s) && Holds(cfg.limits, q, d, y, now)
            && (RunQuality(cfg, q, s, moves) == Exact ==> Load(cfg.limits, r.disk, t) == Some(View(r.live, t)))
            && (RunQuality(cfg, q, s, moves) == Safe ==> Load(cfg.limits, r.disk, t) in {None, Some(View(r.live, t))})
  {
    hide Run, RunQuality, ValidRun, Outlived;
    var q := LoadedQuality(cfg.limits, d, now);
    DiskIsAcceptable(cfg.limits, d);
    LoadedFilesDescribeExactlyWhenNothingOutlived(cfg.limits, d, y, now);
    LoadedFilesReproduceExactlyWhen(cfg.limits, d, y, now);
    EmptyWellFormed(cfg.limits);
    DiskLogIsGood(cfg.limits, d);
    ReplayKeepsWellFormed(cfg.limits, EMPTY, Log(d), now);
    RestartRefinement(cfg, q, State(y, d, now), moves, t);
  }

  // ---------------------------------------------------------------- an interrupted checkpoint

  /** What the journal is replayed over, and with what result, when its removal did not happen. */
  lemma NotUnlinkedLoad(l: Limits, x: Live, d: Disk, env: Env, now: int, t: int)
    requires WellFormed(l, x) && 0 <= now <= t && Lists(env.listing, Active(x.table, now))
    requires env.checkpoint == NotUnlinked && d.tear == None && Acceptable(l, d.journal)
    ensures Load(l, Checkpoint(x, d, env).0, t) ==
            if WritesLoadable(x, env) && StaysWithin(l, View(x, t), d.journal, t)
            then Some(Effects(View(x, t), d.journal, t)) else None
  {
    ImageLoads(l, env.listing, x, now, t);
    ReplayConcat(l, EMPTY, ImageRecords(Image(env.listing, x.clients)), d.journal, t);
    TotalCostMonotone(Active(x.table, t), x.table);
    ReplayExactlyWhenWithin(l, View(x, t), d.journal, t);
  }

  /** Every client the journal mentions has a record, so replaying it makes none. */
  lemma JournaledClientsAreKnown(x: Live, d: Disk, before: int, t: int, n: nat)
    requires Describes(d, x, before) && t >= before && n <= |d.journal|
    ensures |Effects(View(x, t), d.journal[..n], t).clients| == |x.clients|
  {
    JournalIsIdempotentOnItsResult(d, x, before, t);
    var part := d.journal[..n];
    forall i | 0 <= i < |part| && part[i].Upsert?
      ensures Clients.Lookup(x.clients, part[i].client.id).Some?
    {
      assert part[i] == d.journal[i];
      LastUpsertExists(d.journal, i);
      ReplayMeaningForClients(View(x, t), d.journal, t, d.journal[i].client.id);
    }
    KnownIdsStayInPlace(View(x, t), part, t);
    assert |Clients.Ids(Effects(View(x, t), part, t).clients)| == |Clients.Ids(x.clients)|;
  }

  /** The table at every point of replaying the journal over the new image is within the ceiling. */
  ghost predicate PeaksFit(l: Limits, x: Live, journal: seq<Record>, t: int) {
    forall n :: 0 <= n <= |journal| ==> TotalCost(Effects(View(x, t), journal[..n], t).table) <= l.memory
  }

  /**
   A crash between rename and journal removal: the next load finds the live state if and only if the
   image is below 4 GiB and no prefix of the old journal, replayed over it, exceeds the ceiling.
   Otherwise it fails.
   */
  lemma InterruptedCheckpointLoadsExactlyWhenPeaksFit(l: Limits, x: Live, d: Disk, env: Env, before: int, now: int,
        t: int)
    requires Describes(d, x, before) && 0 <= before <= now <= t
    requires WellFormed(l, x) && Lists(env.listing, Active(x.table, now)) && env.checkpoint == NotUnlinked
    requires Acceptable(l, d.journal)
    ensures Load(l, Checkpoint(x, d, env).0, t) ==
            if WritesLoadable(x, env) && PeaksFit(l, x, d.journal, t) then Some(View(x, t)) else None
  {
    hide Load, Effects;
    NotUnlinkedLoad(l, x, d, env, now, t);
    JournalIsIdempotentOnItsResult(d, x, before, t);
    forall n | 0 <= n <= |d.journal|
      ensures Room(l, Effects(View(x, t), d.journal[..n], t)) <==>
              TotalCost(Effects(View(x, t), d.journal[..n], t).table) <= l.memory
    {
      JournaledClientsAreKnown(x, d, before, t, n);
    }
  }

  /** The same for an export or the final checkpoint in any state a run reaches under the claim `Exact` or `Safe`. */
  lemma InterruptedCheckpointInARun(cfg: Config, s: State, e: Event, now: int, env: Env, t: int)
    requires Inv(cfg, s) && Allowed(cfg, s, e, now, env) && Describes(s.disk, s.live, s.clock) && t >= now
    requires (e == Shutdown || (e.Export? && e.hasRoom)) && env.checkpoint == NotUnlinked
    ensures Load(cfg.limits, Step(cfg, s, e, now, env).0.disk, t) ==
            if WritesLoadable(s.live, env) && PeaksFit(cfg.limits, s.live, s.disk.journal, t)
            then Some(View(s.live, t)) else None
  {
    hide Load, PeaksFit, Acceptable;
    JournalIsAcceptable(cfg.limits, s.disk.journal);
    InterruptedCheckpointLoadsExactlyWhenPeaksFit(cfg.limits, s.live, s.disk, env, s.clock, now, t);
  }

  function SetCosts(log: seq<Record>): nat {
    if |log| == 0 then 0
    else
      var r := log[|log| - 1];
      SetCosts(log[..|log| - 1]) + if r.Set? then Cost(r.key, r.value) else 0
  }

  lemma {:induction false} EffectsCostAtMostTheSets(x: Live, log: seq<Record>, t: int)
    ensures TotalCost(Effects(x, log, t).table) <= TotalCost(x.table) + SetCosts(log)
  {
    if |log| > 0 {
      var front, r := log[..|log| - 1], log[|log| - 1];
      EffectsCostAtMostTheSets(x, front, t);
      var y := Effects(x, front, t).table;
      match r {
        case Set(k, v, e) => TotalCostUpdate(y, k, Entry(v, e));
        case Remove(k) => TotalCostRemove(y, k);
        case Upsert(_) =>
        case PurgeAll => TotalCostMonotone(map[], y);
      }
    }
  }

  lemma {:induction false} SetCostsOfPrefix(log: seq<Record>, n: nat)
    requires n <= |log|
    ensures SetCosts(log[..n]) <= SetCosts(log)
  {
    if n < |log| {
      SetCostsOfPrefix(log[..|log| - 1], n);
      assert log[..|log| - 1][..n] == log[..n];
    } else {
      assert log[..n] == log;
    }
  }

  /** Room for the journal's SETs beside the live charge is enough. */
  lemma InterruptedCheckpointLoadsWithHeadroom(l: Limits, x: Live, d: Disk, env: Env, before: int, now: int, t: int)
    requires Describes(d, x, before) && 0 <= before <= now <= t
    requires WellFormed(l, x) && Lists(env.listing, Active(x.table, now)) && env.checkpoint == NotUnlinked
    requires Acceptable(l, d.journal) && TotalCost(x.table) + SetCosts(d.journal) <= l.memory && WritesLoadable(x, env)
    ensures Load(l, Checkpoint(x, d, env).0, t) == Some(View(x, t))
  {
    hide Load, Effects;
    InterruptedCheckpointLoadsExactlyWhenPeaksFit(l, x, d, env, before, now, t);
    TotalCostMonotone(Active(x.table, t), x.table);
    forall n | 0 <= n <= |d.journal|
      ensures TotalCost(Effects(View(x, t), d.journal[..n], t).table) <= l.memory
    {
      EffectsCostAtMostTheSets(View(x, t), d.journal[..n], t);
      SetCostsOfPrefix(d.journal, n);
    }
  }

  // ---------------------------------------------------------------- an interrupted replacement

  /** What the journal decides about key `k` is what the table holds. */
  predicate KeyAgrees(table: Table, journal: seq<Record>, t: int, k: Key) {
    var i := LastTouch(journal, k, t);
    i >= 0 ==>
      if journal[i].Set? then k in table && table[k] == Entry(journal[i].value, journal[i].expires) else k !in table
  }

  /** What the journal last says about a client is its record. */
  predicate ClientAgrees(cs: seq<Clients.Client>, journal: seq<Record>, id: seq<byte>) {
    LastUpsert(journal, id).Some? ==> Clients.Lookup(cs, id) == LastUpsert(journal, id)
  }

  lemma TableSurvivesExactlyWhenKeysAgree(y: Live, journal: seq<Record>, t: int)
    ensures Effects(y, journal, t).table == y.table <==> forall k :: KeyAgrees(y.table, journal, t, k)
  {
    hide Effects;
    forall k
      ensures AgreeAt(Effects(y, journal, t).table, y.table, k) <==> KeyAgrees(y.table, journal, t, k)
    {
      ReplayMeaning(y, journal, t, k, LastTouch(journal, k, t));
    }
    if forall k :: KeyAgrees(y.table, journal, t, k) {
      forall k
        ensures AgreeAt(Effects(y, journal, t).table, y.table, k)
      {
        assert KeyAgrees(y.table, journal, t, k);
      }
      TablesAgree(Effects(y, journal, t).table, y.table);
    }
  }

  lemma ClientsSurviveExactlyWhenTheyAgree(y: Live, journal: seq<Record>, t: int)
    requires Clients.UniqueIds(y.clients)
    ensures Effects(y, journal, t).clients == y.clients <==> forall id :: ClientAgrees(y.clients, journal, id)
  {
    hide Effects, Clients.Lookup;
    var after := Effects(y, journal, t).clients;
    forall id
      ensures Clients.Lookup(after, id) == Clients.Lookup(y.clients, id) <==> ClientAgrees(y.clients, journal, id)
    {
      ReplayMeaningForClients(y, journal, t, id);
    }
    if forall id :: ClientAgrees(y.clients, journal, id) {
      forall i | 0 <= i < |journal| && journal[i].Upsert?
        ensures Clients.Lookup(y.clients, journal[i].client.id).Some?
      {
        LastUpsertExists(journal, i);
        assert ClientAgrees(y.clients, journal, journal[i].client.id);
      }
      KnownIdsStayInPlace(y, journal, t);
      EffectsKeepUniqueIds(y, journal, t);
      forall id
        ensures Clients.Lookup(after, id) == Clients.Lookup(y.clients, id)
      {
        assert ClientAgrees(y.clients, journal, id);
      }
      Clients.SameIdsSameRecords(after, y.clients);
    }
    if after == y.clients {
      forall id
        ensures ClientAgrees(y.clients, journal, id)
      {
        assert Clients.Lookup(after, id) == Clients.Lookup(y.clients, id);
      }
    }
  }

  /**
   A state that replaced the old one, as an import does, survives a crash before the old journal is
   removed if and only if its image is below 4 GiB, the replay stays within the limits, and every key
   and every client the old journal decides already is what it decides.
   */
  lemma InterruptedReplacementSurvivesExactlyWhen(l: Limits, y: Live, d: Disk, env: Env, now: int, t: int)
    requires WellFormed(l, y) && 0 <= now <= t && Lists(env.listing, Active(y.table, now))
    requires env.checkpoint == NotUnlinked && d.tear == None && Acceptable(l, d.journal)
    ensures Load(l, Checkpoint(y, d, env).0, t) == Some(View(y, t)) <==>
              && WritesLoadable(y, env) && StaysWithin(l, View(y, t), d.journal, t)
              && (forall k :: KeyAgrees(Active(y.table, t), d.journal, t, k))
              && (forall id :: ClientAgrees(y.clients, d.journal, id))
  {
    hide Load, Effects, KeyAgrees, ClientAgrees, StaysWithin;
    NotUnlinkedLoad(l, y, d, env, now, t);
    TableSurvivesExactlyWhenKeysAgree(View(y, t), d.journal, t);
    ClientsSurviveExactlyWhenTheyAgree(View(y, t), d.journal, t);
  }

  /** The same for an import in any state a run reaches whose journal is not torn. */
  lemma InterruptedImportInARun(cfg: Config, s: State, image: Image, now: int, env: Env, t: int)
    requires Inv(cfg, s) && Allowed(cfg, s, ImportImage(Some(image)), now, env) && s.disk.tear == None && t >= now
    requires Replay(cfg.limits, EMPTY, ImageRecords(image), now).Some? && env.checkpoint == NotUnlinked
    ensures var s' := Step(cfg, s, ImportImage(Some(image)), now, env).0;
            Load(cfg.limits, s'.disk, t) == Some(View(s'.live, t)) <==>
              && WritesLoadable(s'.live, env) && StaysWithin(cfg.limits, View(s'.live, t), s.disk.journal, t)
              && (forall k :: KeyAgrees(Active(s'.live.table, t), s.disk.journal, t, k))
              && (forall id :: ClientAgrees(s'.live.clients, s.disk.journal, id))
  {
    hide Load, Replay, StaysWithin, Acceptable, KeyAgrees, ClientAgrees;
    StepKeepsInv(cfg, s, ImportImage(Some(image)), now, env);
    JournalIsAcceptable(cfg.limits, s.disk.journal);
    var y := Replay(cfg.limits, EMPTY, ImageRecords(image), now).value;
    InterruptedReplacementSurvivesExactlyWhen(cfg.limits, y, s.disk, env, now, t);
  }

  // ---------------------------------------------------------------- an interrupted purge of everything

  /** The active entries the old journal decides. */
  function Decided(table: Table, journal: seq<Record>, t: int): Table {
    map k | k in table && LastTouch(journal, k, t) >= 0 :: table[k]
  }

  lemma PurgedJournalBringsBackWhatItDecides(x: Live, journal: seq<Record>, t: int)
    requires Effects(View(x, t), journal, t) == View(x, t)
    ensures Effects(Live(map[], x.clients), journal, t) == Live(Decided(Active(x.table, t), journal, t), x.clients)
  {
    hide Effects;
    var y := Live(map[], x.clients);
    ClientEffectsIgnoreTable(View(x, t), y, journal, t);
    var after, want := Effects(y, journal, t).table, Decided(Active(x.table, t), journal, t);
    forall k
      ensures AgreeAt(after, want, k)
    {
      KeyOverJournal(View(x, t), y, journal, t, k);
    }
    TablesAgree(after, want);
  }

  /**
   A purge of everything whose append wrote nothing and whose checkpoint stopped before the journal was
   removed: a load that succeeds brings back exactly the unexpired entries the journal decides. It is
   the state before the purge if and only if those are all, and the state after it if and only if none.
   */
  lemma InterruptedPurgeAllExactly(l: Limits, x: Live, d: Disk, env: Env, before: int, now: int, t: int)
    requires Describes(d, x, before) && 0 <= before <= now <= t && WellFormed(l, x)
    requires env.append(0) == NothingWritten && env.checkpoint == NotUnlinked && env.listing == []
    ensures var z := Load(l, Save(x.(table := map[]), d, PurgeAll, env).0, t);
            var active := Active(x.table, t);
            z.Some? ==>
              && z.value == Live(Decided(active, d.journal, t), x.clients)
              && (z.value == View(x, t) <==> forall k :: k in active ==> LastTouch(d.journal, k, t) >= 0)
              && (z.value == Live(map[], x.clients) <==> forall k :: k in active ==> LastTouch(d.journal, k, t) < 0)
  {
    hide Load, Effects;
    var y := x.(table := map[]);
    var d' := Save(y, d, PurgeAll, env).0;
    SubTableKeepsLimits(l, map[], x.table);
    NotUnlinkedEffects(l, y, d, env, now, t);
    JournalIsIdempotentOnItsResult(d, x, before, t);
    assert View(y, t) == Live(map[], x.clients);
    PurgedJournalBringsBackWhatItDecides(x, d.journal, t);
    if Load(l, d', t).Some? {
      LoadComputesEffects(l, d', t);
    }
    DecidedExtremes(Active(x.table, t), d.journal, t);
  }

  lemma DecidedExtremes(table: Table, journal: seq<Record>, t: int)
    ensures Decided(table, journal, t) == table <==> forall k :: k in table ==> LastTouch(journal, k, t) >= 0
    ensures Decided(table, journal, t) == map[] <==> forall k :: k in table ==> LastTouch(journal, k, t) < 0
  {
    var some := Decided(table, journal, t);
    assert forall k :: k in some <==> k in table && LastTouch(journal, k, t) >= 0;
  }

  // ---------------------------------------------------------------- an interrupted purge of listed keys

  predicate Removals(extra: seq<Record>, keys: seq<Key>) {
    forall i :: 0 <= i < |extra| ==> extra[i].Remove? && extra[i].removed in keys
  }

  /** A purge appends removals of listed keys and nothing else. */
  lemma {:induction false} PurgeAppendsRemovals(p: Purge, keys: seq<Key>, i: nat, env: Env) returns (extra: seq<Record>)
    requires i <= |keys|
    ensures var r := PurgeFrom(p, keys, i, env);
            && r.disk.checkpoint == p.disk.checkpoint && r.disk.journal == p.disk.journal + extra
            && (p.disk.tear.Some? ==> r.disk.tear.Some?)
    ensures Removals(extra, keys)
    decreases |keys| - i
  {
    extra := [];
    if i < |keys| {
      if keys[i] !in p.table {
        extra := PurgeAppendsRemovals(p, keys, i + 1, env);
      } else {
        var d := if p.failed then p.disk else Append(p.disk, Remove(keys[i]), env.append(i));
        var first := if d.journal == p.disk.journal then [] else [Remove(keys[i])];
        assert d.journal == p.disk.journal + first;
        var next := Purge(p.table - {keys[i]}, d, p.failed || env.append(i) != Appended, p.purged + 1);
        var rest := PurgeAppendsRemovals(next, keys, i + 1, env);
        extra := first + rest;
        assert p.disk.journal + first + rest == p.disk.journal + extra;
      }
    } else {
      assert p.disk.journal + [] == p.disk.journal;
    }
  }

  lemma {:induction false} RemovalsOnTop(z: Live, extra: seq<Record>, keys: seq<Key>, t: int, k: Key)
    requires Removals(extra, keys)
    ensures var after := Effects(z, extra, t);
            after.clients == z.clients && (AgreeAt(after.table, z.table, k) || (k in keys && k !in after.table))
  {
    if |extra| > 0 {
      RemovalsOnTop(z, extra[..|extra| - 1], keys, t, k);
    }
  }

  /** Each key is as before or as after. */
  ghost predicate PerKey(z: Live, x: Live, y: Live, t: int) {
    && z.clients == x.clients
    && forall k :: AgreeAt(z.table, Active(x.table, t), k) || AgreeAt(z.table, Active(y.table, t), k)
  }

  /** Removals over a state that is before or after at each key. */
  lemma RemovalsKeepPerKey(z: Live, x: Live, y: Live, extra: seq<Record>, keys: seq<Key>, t: int)
    requires PerKey(z, x, y, t) && Removals(extra, keys) && forall k :: k in keys ==> k !in y.table
    ensures PerKey(Effects(z, extra, t), x, y, t)
  {
    hide Effects;
    RemovalsOnTop(z, extra, keys, t, []);
    forall k
      ensures var after := Effects(z, extra, t).table;
              AgreeAt(after, Active(x.table, t), k) || AgreeAt(after, Active(y.table, t), k)
    {
      RemovalsOnTop(z, extra, keys, t, k);
      assert AgreeAt(z.table, Active(x.table, t), k) || AgreeAt(z.table, Active(y.table, t), k);
    }
  }

  lemma JournalKeepsPerKey(x: Live, y: Live, journal: seq<Record>, t: int)
    requires Effects(View(x, t), journal, t) == View(x, t) && x.clients == y.clients
    ensures PerKey(Effects(View(y, t), journal, t), x, y, t)
  {
    hide Effects;
    ClientEffectsIgnoreTable(View(x, t), View(y, t), journal, t);
    forall k
      ensures var after := Effects(View(y, t), journal, t).table;
              AgreeAt(after, Active(x.table, t), k) || AgreeAt(after, Active(y.table, t), k)
    {
      KeyOverJournal(View(x, t), View(y, t), journal, t, k);
    }
  }

  /**
   A purge of listed keys, with any of its appends failing and its checkpoint stopping anywhere: a load
   that succeeds finds every client as it was and each key either as before the purge or as after it.
   */
  lemma InterruptedPurgeIsPerKey(cfg: Config, s: State, keys: seq<Key>, now: int, env: Env, t: int)
    requires Inv(cfg, s) && Allowed(cfg, s, DeleteKeys(keys), now, env) && t >= now
    requires Describes(s.disk, s.live, s.clock)
    ensures var s' := Step(cfg, s, DeleteKeys(keys), now, env).0;
            Load(cfg.limits, s'.disk, t).Some? ==> PerKey(Load(cfg.limits, s'.disk, t).value, s.live, s'.live, t)
  {
    hide Load, Effects;
    var s' := Step(cfg, s, DeleteKeys(keys), now, env).0;
    if Load(cfg.limits, s'.disk, t).Some? {
      LoadComputesEffects(cfg.limits, s'.disk, t);
      PurgedEffectsPerKey(cfg, s, keys, now, env, t);
    }
  }

  lemma PurgedEffectsPerKey(cfg: Config, s: State, keys: seq<Key>, now: int, env: Env, t: int)
    requires Inv(cfg, s) && Allowed(cfg, s, DeleteKeys(keys), now, env) && t >= now
    requires Describes(s.disk, s.live, s.clock)
    ensures var s' := Step(cfg, s, DeleteKeys(keys), now, env).0;
            PerKey(Effects(EMPTY, Log(s'.disk), t), s.live, s'.live, t)
  {
    var l, x, d := cfg.limits, s.live, s.disk;
    var s' := Step(cfg, s, DeleteKeys(keys), now, env).0;
    var y, p := s'.live, PurgeFrom(Purge(x.table, d, false, 0), keys, 0, env);
    StepKeepsInv(cfg, s, DeleteKeys(keys), now, env);
    Purging.PurgeCountsDifferentKeys(cfg, s, keys, now, env);
    var extra := PurgeAppendsRemovals(Purge(x.table, d, false, 0), keys, 0, env);
    JournalIsIdempotentOnItsResult(d, x, s.clock, t);
    assert Effects(EMPTY, Log(d), t) == View(x, t);
    hide Effects, PurgeFrom;
    if p.failed && env.checkpoint == Complete {
      CompleteCheckpointIsExactBelow4GiB(l, y, p.disk, env, now);
      assert Effects(EMPTY, Log(s'.disk), t) == View(y, t);
    } else if p.failed && env.checkpoint == NotUnlinked {
      NotUnlinkedEffects(l, y, p.disk, env, now, t);
      EffectsConcat(View(y, t), d.journal, extra, t);
      JournalKeepsPerKey(x, y, d.journal, t);
      RemovalsKeepPerKey(Effects(View(y, t), d.journal, t), x, y, extra, keys, t);
    } else {
      assert Log(p.disk) == Log(d) + extra;
      EffectsConcat(EMPTY, Log(d), extra, t);
      RemovalsKeepPerKey(View(x, t), x, y, extra, keys, t);
    }
  }
}
