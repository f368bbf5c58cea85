/**
 The conditions of the durability theorems: exactly when an overwrite survives restarts, which
 files a server can start from, what an interrupted fallback checkpoint leaves, and concrete
 files for the cases the theorems exclude.
 */
module CrashPoints {
  import opened Bytes
  import opened CacheTable
  import opened Recovery
  import opened Machine
  import opened Durability
  import Clients

  // ---------------------------------------------------------------- shortened lives

  /** A journaled overwrite keeps every later restart exact if and only if it does not shorten the key's life. */
  lemma OverwriteSurvivesExactlyWhenNotShortened(
    l: Limits, x: Live, d: Disk, k: Key, v: seq<byte>, e: int, now: int)
    requires Reproduces(l, d, x, now) && WithinLimits(l, x.table) && 0 <= now < e
    requires Write(l, x.table, k, v, e).0 == Ok
    ensures Reproduces(l, Append(d, Set(k, v, e), Appended), x.(table := x.table[k := Entry(v, e)]), now)
            <==> !Shortens(x.table, k, e)
  {
    var r := Set(k, v, e);
    var d', y := Append(d, r, Appended), x.(table := x.table[k := Entry(v, e)]);
    if Shortens(x.table, k, e) {
      assert Log(d')[..|Log(d')| - 1] == Log(d);
      assert Load(l, d, e) == Some(View(x, e));
      assert Load(l, d', e) == Some(View(x, e));
      assert k in View(x, e).table && k !in View(y, e).table;
    } else {
      SetJournals(l, x, k, v, e, now);
      AppendKeepsQuality(l, Exact, x, y, d, r, now, now);
    }
  }

  predicate Kills(r: Record, k: Key) {
    r.PurgeAll? || (r.Remove? && r.removed == k)
  }

  /** An earlier SET of `k`, not removed since, outlives the SET that decides `k` now. */
  predicate Outlived(log: seq<Record>, now: int, k: Key, i: nat) {
    var last := LastTouch(log, k, now);
    && i < last && log[last].Set?
    && log[i].Set? && log[i].key == k && log[i].expires > log[last].expires
    && forall m :: i < m < |log| ==> !Kills(log[m], k)
  }

  /** Every later load is the load of now with the expired entries dropped. */
  ghost predicate Steady(log: seq<Record>, now: int) {
    forall t :: t >= now ==> Effects(EMPTY, log, t).table == Active(Effects(EMPTY, log, now).table, t)
  }

  lemma OutlivedIsNotSteady(log: seq<Record>, now: int, k: Key, i: nat)
    requires Outlived(log, now, k, i)
    ensures !Steady(log, now)
  {
    var last := LastTouch(log, k, now);
    var t := log[last].expires;
    var m := LastTouch(log, k, t);
    assert Touches(log[i], k, t);
    ReplayMeaning(EMPTY, log, now, k, last);
    ReplayMeaning(EMPTY, log, t, k, m);
    assert k in Effects(EMPTY, log, t).table;
    assert k !in Active(Effects(EMPTY, log, now).table, t);
  }

  lemma NothingOutlivedAgrees(log: seq<Record>, now: int, t: int, k: Key)
    requires t >= now && forall i: nat :: !Outlived(log, now, k, i)
    ensures var later, aged := Effects(EMPTY, log, t).table, Active(Effects(EMPTY, log, now).table, t);
            (k in later <==> k in aged) && (k in later ==> later[k] == aged[k])
  {
    var a, b := LastTouch(log, k, now), LastTouch(log, k, t);
    ReplayMeaning(EMPTY, log, now, k, a);
    ReplayMeaning(EMPTY, log, t, k, b);
    assert b >= 0 ==> Touches(log[b], k, now);
    assert a >= 0 && !log[a].Set? ==> Touches(log[a], k, t);
    assert b < 0 || !Outlived(log, now, k, b);
  }

  /** Every later restart agrees with this one exactly when no SET is outlived by an earlier one. */
  lemma SteadyExactlyWhenNothingOutlived(log: seq<Record>, now: int)
    ensures Steady(log, now) <==> forall k: Key, i: nat :: !Outlived(log, now, k, i)
  {
    forall k: Key, i: nat | Outlived(log, now, k, i)
      ensures !Steady(log, now)
    {
      OutlivedIsNotSteady(log, now, k, i);
    }
    if forall k: Key, i: nat :: !Outlived(log, now, k, i) {
      forall t | t >= now
        ensures Effects(EMPTY, log, t).table == Active(Effects(EMPTY, log, now).table, t)
      {
        forall k {
          NothingOutlivedAgrees(log, now, t, k);
        }
      }
    }
  }

  lemma {:induction false} ClientEffectsIgnoreTime(x: Live, log: seq<Record>, t: int, u: int)
    ensures Effects(x, log, t).clients == Effects(x, log, u).clients
  {
    if |log| > 0 {
      ClientEffectsIgnoreTime(x, log[..|log| - 1], t, u);
    }
  }

  /** Files that load describe the loaded state for the future exactly when no SET in them is outlived. */
  lemma LoadedFilesDescribeExactlyWhenNothingOutlived(l: Limits, d: Disk, y: Live, now: int)
    requires Load(l, d, now) == Some(y)
    ensures Holds(l, Safe, d, y, now) <==> forall k: Key, i: nat :: !Outlived(Log(d), now, k, i)
  {
    ReplayComputesEffects(l, EMPTY, Log(d), now);
    SteadyExactlyWhenNothingOutlived(Log(d), now);
    forall t | t >= now
      ensures Effects(EMPTY, Log(d), t) == View(y, t) <==>
              Effects(EMPTY, Log(d), t).table == Active(Effects(EMPTY, Log(d), now).table, t)
    {
      ClientEffectsIgnoreTime(EMPTY, Log(d), t, now);
    }
  }

  // ---------------------------------------------------------------- a failed append and its fallback

  lemma {:induction false} ClientEffectsIgnoreTable(x: Live, y: Live, log: seq<Record>, t: int)
    requires x.clients == y.clients
    ensures Effects(x, log, t).clients == Effects(y, log, t).clients
  {
    if |log| > 0 {
      ClientEffectsIgnoreTable(x, y, log[..|log| - 1], t);
    }
  }

  lemma {:induction false} TableEffectsIgnoreClients(x: Live, y: Live, log: seq<Record>, t: int)
    requires x.table == y.table
    ensures Effects(x, log, t).table == Effects(y, log, t).table
  {
    if |log| > 0 {
      TableEffectsIgnoreClients(x, y, log[..|log| - 1], t);
    }
  }

  ghost predicate AgreeAt(a: Table, b: Table, k: Key) {
    (k in a <==> k in b) && (k in a ==> a[k] == b[k])
  }

  lemma KeyOverJournal(x: Live, y: Live, journal: seq<Record>, t: int, k: Key)
    requires AgreeAt(Effects(x, journal, t).table, x.table, k)
    ensures LastTouch(journal, k, t) >= 0 || AgreeAt(x.table, y.table, k) ==>
              AgreeAt(Effects(y, journal, t).table, x.table, k)
    ensures LastTouch(journal, k, t) < 0 ==> AgreeAt(Effects(y, journal, t).table, y.table, k)
  {
    var i := LastTouch(journal, k, t);
    ReplayMeaning(x, journal, t, k, i);
    ReplayMeaning(y, journal, t, k, i);
  }

  /** Replaying a journal that produced `x` over a state that differs from `x` in one key. */
  lemma OneKeyOverJournal(x: Live, y: Live, k: Key, journal: seq<Record>, t: int)
    requires Effects(x, journal, t) == x && x.clients == y.clients
    requires forall j :: j != k ==> AgreeAt(x.table, y.table, j)
    ensures Effects(y, journal, t) == if LastTouch(journal, k, t) >= 0 then x else y
  {
    ClientEffectsIgnoreTable(x, y, journal, t);
    var after := Effects(y, journal, t).table;
    var want := if LastTouch(journal, k, t) >= 0 then x.table else y.table;
    forall j
      ensures AgreeAt(after, want, j)
    {
      KeyOverJournal(x, y, journal, t, j);
      assert j != k ==> AgreeAt(x.table, y.table, j);
    }
    TablesAgree(after, want);
  }

  lemma TablesAgree(a: Table, b: Table)
    requires forall k :: AgreeAt(a, b, k)
    ensures a == b
  {
    assert forall k :: k in a ==> AgreeAt(a, b, k);
    assert forall k :: k in b ==> AgreeAt(a, b, k);
  }

  lemma OneClientOverJournal(x: Live, c: Clients.Client, journal: seq<Record>, t: int)
    requires Effects(x, journal, t) == x && Clients.UniqueIds(x.clients)
    ensures var y := x.(clients := Clients.Put(x.clients, c));
            Effects(y, journal, t) == if LastUpsert(journal, c.id).Some? then x else y
  {
    var y := x.(clients := Clients.Put(x.clients, c));
    TableEffectsIgnoreClients(x, y, journal, t);
    var want := if LastUpsert(journal, c.id).Some? then x.clients else y.clients;
    var after := Effects(y, journal, t).clients;
    forall id
      ensures Clients.Lookup(after, id) == Clients.Lookup(want, id)
      ensures LastUpsert(journal, id).Some? ==> Clients.Lookup(x.clients, id).Some?
    {
      ReplayMeaningForClients(x, journal, t, id);
      ReplayMeaningForClients(y, journal, t, id);
      Clients.PutLookup(x.clients, c, id);
    }
    forall i | 0 <= i < |journal| && journal[i].Upsert?
      ensures Clients.Lookup(y.clients, journal[i].client.id).Some?
    {
      LastUpsertExists(journal, i);
      Clients.PutLookup(x.clients, c, journal[i].client.id);
    }
    KnownIdsStayInPlace(y, journal, t);
    assert LastUpsert(journal, c.id).Some? ==> Clients.Ids(y.clients) == Clients.Ids(x.clients);
    Clients.PutUniqueIds(x.clients, c);
    EffectsKeepUniqueIds(y, journal, t);
    Clients.SameIdsSameRecords(after, want);
  }

  /** What the record of a single-key change does to the live state. */
  ghost predicate ChangesOne(x: Live, y: Live, r: Record) {
    match r
    case Set(k, v, e) => y == x.(table := x.table[k := Entry(v, e)])
    case Remove(k) => y == x.(table := x.table - {k})
    case Upsert(c) => Clients.WellFormedClient(c) && y == x.(clients := Clients.Put(x.clients, c))
    case PurgeAll => false
  }

  /**
   A single-key change whose failed append wrote nothing, a part or everything and whose fallback checkpoint
   stopped anywhere: a load that succeeds returns the state before that change or after it, never a mixture.
   */
  lemma FailedAppendIsAllOrNothing(l: Limits, x: Live, y: Live, d: Disk, r: Record, env: Env, before: int, now: int,
        t: int)
    requires Describes(d, x, before) && 0 <= before <= now <= t
    requires ChangesOne(x, y, r) && WellFormed(l, x) && WellFormed(l, y)
    requires Lists(env.listing, Active(y.table, now)) && env.append(0) != Appended
    ensures Load(l, Save(y, d, r, env).0, t) in {None, Some(View(x, t)), Some(View(y, t))}
  {
    hide Effects, Replay;
    var d' := Save(y, d, r, env).0;
    if env.append(0) != PartWritten {
      FailedAppendEffects(l, x, y, d, r, env, before, now, t);
    } else if env.checkpoint == Complete {
      CompleteCheckpointIsExactBelow4GiB(l, y, Append(d, r, PartWritten), env, now);
      assert Describes(d', y, now);
    } else {
      assert d'.tear.Some?;
    }
    if Load(l, d', t).Some? {
      LoadComputesEffects(l, d', t);
    }
  }

  lemma LoadComputesEffects(l: Limits, d: Disk, t: int)
    requires Load(l, d, t).Some?
    ensures Load(l, d, t).value == Effects(EMPTY, Log(d), t)
  {
    ReplayComputesEffects(l, EMPTY, Log(d), t);
  }

  lemma FailedAppendEffects(l: Limits, x: Live, y: Live, d: Disk, r: Record, env: Env, before: int, now: int, t: int)
    requires Describes(d, x, before) && 0 <= before <= now <= t
    requires ChangesOne(x, y, r) && WellFormed(l, x) && WellFormed(l, y)
    requires Lists(env.listing, Active(y.table, now)) && env.append(0) in {NothingWritten, Unconfirmed}
    ensures Effects(EMPTY, Log(Save(y, d, r, env).0), t) in {View(x, t), View(y, t)}
  {
    var d1 := Append(d, r, env.append(0));
    var d' := Save(y, d, r, env).0;
    JournalIsIdempotentOnItsResult(d, x, before, t);
    OneChangeOverJournal(x, y, r, d.journal, t);
    RecordOnTop(x, y, r, d.journal, t);
    assert Effects(EMPTY, Log(d), t) == View(x, t);
    EffectsConcat(EMPTY, Log(d), [r], t);
    hide Effects;
    match env.checkpoint {
      case NotRenamed => assert env.append(0) == Unconfirmed ==> Log(d') == Log(d) + [r];
      case Complete =>
        CompleteCheckpointIsExactBelow4GiB(l, y, d1, env, now);
        assert Describes(d', y, now);
      case NotUnlinked => NotUnlinkedEffects(l, y, d1, env, now, t);
    }
  }

  lemma OneChangeOverJournal(x: Live, y: Live, r: Record, journal: seq<Record>, t: int)
    requires ChangesOne(x, y, r) && Clients.UniqueIds(x.clients) && Effects(View(x, t), journal, t) == View(x, t)
    ensures Effects(View(y, t), journal, t) in {View(x, t), View(y, t)}
  {
    match r {
      case Set(k, v, e) => OneKeyOverJournal(View(x, t), View(y, t), k, journal, t);
      case Remove(k) => OneKeyOverJournal(View(x, t), View(y, t), k, journal, t);
      case Upsert(c) => OneClientOverJournal(View(x, t), c, journal, t);
    }
  }

  /** A record written in full, applied to the state before or after its change. */
  lemma RecordOnTop(x: Live, y: Live, r: Record, journal: seq<Record>, t: int)
    requires ChangesOne(x, y, r) && Clients.UniqueIds(x.clients)
    requires Effects(View(y, t), journal, t) in {View(x, t), View(y, t)}
    ensures Effects(View(x, t), [r], t) in {View(x, t), View(y, t)}
    ensures Effects(View(y, t), journal + [r], t) in {View(x, t), View(y, t)}
  {
    EffectsConcat(View(y, t), journal, [r], t);
    EffectOnTop(x, y, r, t);
  }

  lemma EffectOnTop(x: Live, y: Live, r: Record, t: int)
    requires ChangesOne(x, y, r) && Clients.UniqueIds(x.clients)
    ensures Effects(View(x, t), [r], t) in {View(x, t), View(y, t)}
    ensures Effects(View(y, t), [r], t) in {View(x, t), View(y, t)}
  {
    EffectsOne(View(x, t), r, t);
    EffectsOne(View(y, t), r, t);
    hide Effects;
    match r {
      case Set(k, v, e) => SetOnTop(x.table, k, Entry(v, e), t);
      case Remove(k) =>
        assert Active(x.table, t) - {k} == Active(y.table, t);
        assert Active(y.table, t) - {k} == Active(y.table, t);
      case Upsert(c) => PutTwice(x.clients, c);
    }
  }

  lemma EffectsOne(z: Live, r: Record, t: int)
    ensures Effects(z, [r], t) == Effect(z, r, t)
  {
    assert [r][..0] == [];
  }

  lemma SetOnTop(table: Table, k: Key, e: Entry, t: int)
    ensures e.expires > t ==> Active(table, t)[k := e] == Active(table[k := e], t)
    ensures e.expires > t ==> Active(table[k := e], t)[k := e] == Active(table[k := e], t)
  {
  }

  lemma PutTwice(cs: seq<Clients.Client>, c: Clients.Client)
    requires Clients.UniqueIds(cs)
    ensures Clients.Put(Clients.Put(cs, c), c) == Clients.Put(cs, c)
  {
    Clients.PutLookup(cs, c, c.id);
  }

  // ---------------------------------------------------------------- files the theorems exclude

  const A: Key := [97]
  const B: Key := [98]
  const SMALL: Limits := Limits(60, 10, 100)
  const WIDE: Limits := Limits(600, 10, 100)

  function TenBytes(): seq<byte> {
    [0, 0, 0, 0, 0, 0, 0, 0, 0, 0]
  }

  function NoAppend(outcome: CheckpointOutcome, listing: seq<(Key, Entry)>): Env {
    Env(i => NothingWritten, outcome, listing)
  }

  lemma OneEntryCost(k: Key, e: Entry)
    ensures TotalCost(map[k := e]) == Cost(k, e.value)
  {
    var none: Table := map[];
    TotalCostUpdate(none, k, e);
    assert none[k := e] == map[k := e];
  }

  lemma ReplayOne(l: Limits, x: Live, r: Record, t: int)
    ensures Replay(l, x, [r], t) == Apply(l, x, r, t)
  {
    assert [r][..0] == [];
  }

  /** In an unlimited-enough table one short SET is admitted. */
  lemma ShortSetApplies(x: Live, k: Key)
    requires |k| == 1 && TotalCost(x.table) <= 100
    ensures Apply(WIDE, x, Set(k, [], 100), 0) == Some(x.(table := x.table[k := Entry([], 100)]))
  {
    TotalCostUpdate(x.table, k, Entry([], 0));
  }

  /** Journaling SET a, DELETE a, SET b into an empty directory. */
  lemma ReplacedJournal(l: Limits)
    requires l == SMALL
    ensures var d := Disk(None, [Set(A, TenBytes(), 100), Remove(A), Set(B, TenBytes(), 100)], None);
            Reproduces(l, d, Live(map[B := Entry(TenBytes(), 100)], []), 0)
  {
    var e := Entry(TenBytes(), 100);
    var x0, x1, x2 := EMPTY, Live(map[A := e], []), Live(map[B := e], []);
    var r0, r1, r2 := Set(A, e.value, 100), Remove(A), Set(B, e.value, 100);
    OneEntryCost(A, Entry(e.value, 0));
    OneEntryCost(A, e);
    OneEntryCost(B, Entry(e.value, 0));
    assert x0.table[A := Entry(e.value, 0)] == map[A := Entry(e.value, 0)];
    assert x0.table[B := Entry(e.value, 0)] == map[B := Entry(e.value, 0)];
    StartIsExact(Config(l, 1, 1));
    SetJournals(l, x0, A, e.value, 100, 0);
    assert x0.table[A := e] == x1.table;
    AppendKeepsQuality(l, Exact, x0, x1, NO_FILES, r0, 0, 0);
    RemoveJournals(l, x1, A, 0);
    assert x1.table - {A} == map[];
    AppendKeepsQuality(l, Exact, x1, x0, Append(NO_FILES, r0, Appended), r1, 0, 0);
    SetJournals(l, x0, B, e.value, 100, 0);
    assert x0.table[B := e] == x2.table;
    var d := Append(Append(NO_FILES, r0, Appended), r1, Appended);
    AppendKeepsQuality(l, Exact, x0, x2, d, r2, 0, 0);
    assert Append(d, r2, Appended).journal == [r0, r1, r2];
  }

  /** Why overwrites must not shorten a life: a load after the second value's expiry finds the value it replaced. */
  lemma AShortenedOverwriteComesBack()
    ensures var d := Disk(None, [Set(A, [1], 100), Set(A, [2], 50)], None);
            && Load(WIDE, d, 0) == Some(Live(map[A := Entry([2], 50)], []))
            && Load(WIDE, d, 60) == Some(Live(map[A := Entry([1], 100)], []))
  {
    var log := [Set(A, [1], 100), Set(A, [2], 50)];
    var d := Disk(None, log, None);
    var one, two := Live(map[A := Entry([1], 100)], []), Live(map[A := Entry([2], 50)], []);
    assert Log(d) == log && log[..1] == [Set(A, [1], 100)];
    CostIgnoresExpiry(map[], A, [1], 0, 100);
    OneEntryCost(A, Entry([1], 100));
    CostIgnoresExpiry(one.table, A, [2], 0, 50);
    OneEntryCost(A, Entry([2], 50));
    assert EMPTY.table[A := Entry([1], 100)] == one.table;
    ReplayOne(WIDE, EMPTY, Set(A, [1], 100), 0);
    ReplayOne(WIDE, EMPTY, Set(A, [1], 100), 60);
    assert Apply(WIDE, EMPTY, Set(A, [1], 100), 0) == Some(one);
    assert Apply(WIDE, EMPTY, Set(A, [1], 100), 60) == Some(one);
    assert one.table[A := Entry([2], 50)] == two.table;
    assert TotalCost(one.table[A := Entry([2], 50)]) == Cost(A, [2]);
    assert Apply(WIDE, one, Set(A, [2], 50), 0) == Some(two);
  }

  /**
   Why a `Safe` load may fail: the files reproduce the live state, yet after a crash between
   rename and journal removal the replay exceeds the memory ceiling on the way.
   */
  lemma InterruptedCheckpointCanExceedTheCeiling()
    ensures var e := Entry(TenBytes(), 100);
            var x := Live(map[B := e], []);
            var d := Disk(None, [Set(A, e.value, 100), Remove(A), Set(B, e.value, 100)], None);
            && Reproduces(SMALL, d, x, 0) && WellFormed(SMALL, x)
            && Load(SMALL, Checkpoint(x, d, NoAppend(NotUnlinked, [(B, e)])).0, 0) == None
  {
    var e := Entry(TenBytes(), 100);
    var x, journal := Live(map[B := e], []), [Set(A, e.value, 100), Remove(A), Set(B, e.value, 100)];
    ReplacedJournal(SMALL);
    OneEntryCost(B, e);
    assert Active(x.table, 0) == x.table && [(B, e)][0].0 == B;
    ImageLoads(SMALL, [(B, e)], x, 0, 0);
    ReplayConcat(SMALL, EMPTY, ImageRecords(Image([(B, e)], [])), journal, 0);
    TotalCostUpdate(x.table, A, Entry(e.value, 0));
    assert Apply(SMALL, x, journal[0], 0) == None;
    ReplayOne(SMALL, x, journal[0], 0);
    ReplayConcat(SMALL, x, [journal[0]], journal[1..], 0);
    assert [journal[0]] + journal[1..] == journal;
  }

  /**
   Why a purge of everything is not covered by the all-or-nothing theorem: with `a` in the
   checkpoint and `b` in the journal, the interrupted fallback loads `b` alone.
   */
  lemma InterruptedPurgeAllIsAMixture()
    ensures var e := Entry([], 100);
            var d := Disk(Some(Image([(A, e)], [])), [Set(B, [], 100)], None);
            var d' := Save(EMPTY, d, PurgeAll, NoAppend(NotUnlinked, [])).0;
            && Load(WIDE, d, 0) == Some(Live(map[A := e, B := e], []))
            && Load(WIDE, d', 0) == Some(Live(map[B := e], []))
  {
    var e := Entry([], 100);
    var d := Disk(Some(Image([(A, e)], [])), [Set(B, [], 100)], None);
    var d' := Save(EMPTY, d, PurgeAll, NoAppend(NotUnlinked, [])).0;
    var a, b := Set(A, [], 100), Set(B, [], 100);
    var one: Table := map[A := e];
    assert EntryBytes([(A, e)]) == 17 by { assert [(A, e)][..0] == []; }
    assert Log(d) == [a] + [b] && Log(d') == [b];
    ReplayOne(WIDE, EMPTY, a, 0);
    ShortSetApplies(EMPTY, A);
    assert EMPTY.table[A := e] == one;
    ReplayConcat(WIDE, EMPTY, [a], [b], 0);
    ReplayOne(WIDE, Live(one, []), b, 0);
    OneEntryCost(A, e);
    ShortSetApplies(Live(one, []), B);
    assert one[B := e] == map[A := e, B := e];
    ReplayOne(WIDE, EMPTY, b, 0);
    ShortSetApplies(EMPTY, B);
    assert EMPTY.table[B := e] == map[B := e];
  }

  /**
   Why an interrupted import is not covered: the imported state is live, but the old journal is
   replayed over the imported image and brings `b` back.
   */
  lemma InterruptedImportReplaysTheOldJournal(cfg: Config, now: int)
    requires cfg.limits == WIDE && now == 0
    ensures var s := State(Live(map[B := Entry([], 100)], []), Disk(None, [Set(B, [], 100)], None), 0);
            var s' := Step(cfg, s, ImportImage(Some(Image([], []))), now, NoAppend(NotUnlinked, [])).0;
            && s'.live == EMPTY
            && Load(WIDE, s'.disk, now) == Some(Live(map[B := Entry([], 100)], []))
  {
    var e := Entry([], 100);
    var s := State(Live(map[B := e], []), Disk(None, [Set(B, [], 100)], None), 0);
    assert ImageRecords(Image([], [])) == [];
    var s' := Step(cfg, s, ImportImage(Some(Image([], []))), now, NoAppend(NotUnlinked, [])).0;
    assert Log(s'.disk) == [Set(B, [], 100)];
    ReplayOne(WIDE, EMPTY, Set(B, [], 100), 0);
    ShortSetApplies(EMPTY, B);
    assert EMPTY.table[B := e] == map[B := e];
  }
}
