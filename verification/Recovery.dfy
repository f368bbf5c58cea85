/**
 Startup recovery on decoded data: a checkpoint image followed by journal records is one log, and
 loading replays that log at the current time, refusing whatever the store or registry refuses.
 */
module Recovery {
  import opened Bytes
  import opened CacheTable
  import Clients

  datatype Record =
    | Set(key: Key, value: seq<byte>, expires: int)
    | Remove(removed: Key)
    | Upsert(client: Clients.Client)
    | PurgeAll

  datatype Live = Live(table: Table, clients: seq<Clients.Client>)

  const EMPTY: Live := Live(map[], [])

  /** One checkpoint or export file: entries in bucket order, then clients in registry order. */
  datatype Image = Image(entries: seq<(Key, Entry)>, clients: seq<Clients.Client>)

  /**
   The two files. `tear` is set when an append failed after writing part of a record: the journal
   can then be read only up to that position.
   */
  datatype Disk = Disk(checkpoint: Option<Image>, journal: seq<Record>, tear: Option<nat>)

  const NO_FILES: Disk := Disk(None, [], None)

  /** Apply one record at time `t`; `None` stands for a failing load. */
  ghost function Apply(l: Limits, x: Live, r: Record, t: int): Option<Live> {
    match r
    case Set(k, v, e) =>
      if e <= t then Some(x)
      else
        var w := Restore(l, x.table, k, v, e);
        if w.0 == Ok then Some(x.(table := w.1)) else None
    case Remove(k) => Some(x.(table := Delete(x.table, k).1))
    case Upsert(c) =>
      var w := Clients.Import(x.clients, c.id, c.role, c.hash, c.active);
      if w.0 == Clients.Ok then Some(x.(clients := w.1)) else None
    case PurgeAll => Some(x.(table := map[]))
  }

  ghost function Replay(l: Limits, x: Live, log: seq<Record>, t: int): Option<Live> {
    if |log| == 0 then Some(x)
    else
      match Replay(l, x, log[..|log| - 1], t)
      case None => None
      case Some(y) => Apply(l, y, log[|log| - 1], t)
  }

  function EntryRecords(entries: seq<(Key, Entry)>): (s: seq<Record>)
    ensures |s| == |entries|
  {
    seq(|entries|, i requires 0 <= i < |entries| => Set(entries[i].0, entries[i].1.value, entries[i].1.expires))
  }

  function ClientRecords(cs: seq<Clients.Client>): (s: seq<Record>)
    ensures |s| == |cs|
  {
    seq(|cs|, i requires 0 <= i < |cs| => Upsert(cs[i]))
  }

  /** Decoding an image restores its entries and then imports its clients, in order. */
  function ImageRecords(image: Image): seq<Record> {
    EntryRecords(image.entries) + ClientRecords(image.clients)
  }

  function Log(d: Disk): seq<Record> {
    (if d.checkpoint.Some? then ImageRecords(d.checkpoint.value) else []) + d.journal
  }

  // ---------------------------------------------------------------- images that can be read back

  function EntryBytes(entries: seq<(Key, Entry)>): nat {
    if |entries| == 0 then 0
    else
      var e := entries[|entries| - 1];
      EntryBytes(entries[..|entries| - 1]) + 16 + |e.0| + |e.1.value|
  }

  function ClientBytes(cs: seq<Clients.Client>): nat {
    if |cs| == 0 then 0 else ClientBytes(cs[..|cs| - 1]) + 12 + |cs[|cs| - 1].hash| + |cs[|cs| - 1].id|
  }

  /** The length of the payload an image is encoded into. */
  function ImageSize(image: Image): nat {
    20 + EntryBytes(image.entries) + ClientBytes(image.clients)
  }

  /** A packet's length field has 32 bits: a longer image is written with a truncated length. */
  predicate Loadable(image: Image) {
    ImageSize(image) < TWO_32
  }

  predicate CheckpointReadable(d: Disk) {
    d.checkpoint.Some? ==> Loadable(d.checkpoint.value)
  }

  ghost function Load(l: Limits, d: Disk, t: int): Option<Live> {
    if d.tear.Some? || !CheckpointReadable(d) then None else Replay(l, EMPTY, Log(d), t)
  }

  // ---------------------------------------------------------------- replay without limits

  /** The effect of a record when nothing is refused. */
  function Effect(x: Live, r: Record, t: int): Live {
    match r
    case Set(k, v, e) => if e <= t then x else x.(table := x.table[k := Entry(v, e)])
    case Remove(k) => x.(table := x.table - {k})
    case Upsert(c) => x.(clients := Clients.Put(x.clients, Clients.Normalized(c.id, c.role, c.hash, c.active)))
    case PurgeAll => x.(table := map[])
  }

  function Effects(x: Live, log: seq<Record>, t: int): Live {
    if |log| == 0 then x else Effect(Effects(x, log[..|log| - 1], t), log[|log| - 1], t)
  }

  /** A load that succeeds computes the effects of its log. */
  lemma {:induction false} ReplayComputesEffects(l: Limits, x: Live, log: seq<Record>, t: int)
    requires Replay(l, x, log, t).Some?
    ensures Replay(l, x, log, t).value == Effects(x, log, t)
  {
    if |log| > 0 {
      ReplayComputesEffects(l, x, log[..|log| - 1], t);
    }
  }

  lemma {:induction false} ReplayConcat(l: Limits, x: Live, a: seq<Record>, b: seq<Record>, t: int)
    ensures Replay(l, x, a + b, t) ==
            match Replay(l, x, a, t)
            case None => None
            case Some(y) => Replay(l, y, b, t)
  {
    if |b| == 0 {
      assert a + b == a;
    } else {
      ReplayConcat(l, x, a, b[..|b| - 1], t);
      assert (a + b)[..|a + b| - 1] == a + b[..|b| - 1];
    }
  }

  lemma {:induction false} EffectsConcat(x: Live, a: seq<Record>, b: seq<Record>, t: int)
    ensures Effects(x, a + b, t) == Effects(Effects(x, a, t), b, t)
  {
    if |b| == 0 {
      assert a + b == a;
    } else {
      EffectsConcat(x, a, b[..|b| - 1], t);
      assert (a + b)[..|a + b| - 1] == a + b[..|b| - 1];
    }
  }

  // ---------------------------------------------------------------- what a replay means

  /** The record decides what key `k` holds at time `t`. An expired SET decides nothing. */
  predicate Touches(r: Record, k: Key, t: int) {
    match r
    case Set(key, _, e) => key == k && e > t
    case Remove(key) => key == k
    case Upsert(_) => false
    case PurgeAll => true
  }

  /** The last record that decides key `k`, or -1. */
  function LastTouch(log: seq<Record>, k: Key, t: int): (i: int)
    ensures -1 <= i < |log|
    ensures i >= 0 ==> Touches(log[i], k, t)
    ensures forall m :: i < m < |log| ==> !Touches(log[m], k, t)
  {
    if |log| == 0 then -1
    else if Touches(log[|log| - 1], k, t) then |log| - 1
    else LastTouch(log[..|log| - 1], k, t)
  }

  /**
   The exact meaning of a replay at time `t`: the last record that decides a key decides its
   content, a SET by its entry and anything else by absence; an undecided key keeps what it had.
   */
  lemma {:induction false} ReplayMeaning(x: Live, log: seq<Record>, t: int, k: Key, i: int)
    requires -1 <= i < |log|
    requires i >= 0 ==> Touches(log[i], k, t)
    requires forall m :: i < m < |log| ==> !Touches(log[m], k, t)
    ensures var after := Effects(x, log, t).table;
            if i == -1 then
              (k in after <==> k in x.table) && (k in after ==> after[k] == x.table[k])
            else if log[i].Set? then
              k in after && after[k] == Entry(log[i].value, log[i].expires)
            else
              k !in after
    decreases |log|
  {
    if |log| > 0 && i < |log| - 1 {
      var front := log[..|log| - 1];
      assert forall m :: i < m < |front| ==> !Touches(front[m], k, t);
      ReplayMeaning(x, front, t, k, i);
      assert !Touches(log[|log| - 1], k, t);
    }
  }

  /** The last journaled form of one client, if the log mentions it. */
  function LastUpsert(log: seq<Record>, id: seq<byte>): Option<Clients.Client> {
    if |log| == 0 then None
    else
      var r := log[|log| - 1];
      if r.Upsert? && r.client.id == id then
        Some(Clients.Normalized(id, r.client.role, r.client.hash, r.client.active))
      else LastUpsert(log[..|log| - 1], id)
  }

  lemma {:induction false} ReplayMeaningForClients(x: Live, log: seq<Record>, t: int, id: seq<byte>)
    ensures Clients.Lookup(Effects(x, log, t).clients, id) ==
            if LastUpsert(log, id).Some? then LastUpsert(log, id) else Clients.Lookup(x.clients, id)
  {
    if |log| > 0 {
      var front, r := log[..|log| - 1], log[|log| - 1];
      ReplayMeaningForClients(x, front, t, id);
      if r.Upsert? {
        var c := r.client;
        Clients.PutLookup(Effects(x, front, t).clients, Clients.Normalized(c.id, c.role, c.hash, c.active), id);
      }
    }
  }

  // ---------------------------------------------------------------- replaying twice

  lemma {:induction false} EffectsKeepUniqueIds(x: Live, log: seq<Record>, t: int)
    requires Clients.UniqueIds(x.clients)
    ensures Clients.UniqueIds(Effects(x, log, t).clients)
  {
    if |log| > 0 {
      EffectsKeepUniqueIds(x, log[..|log| - 1], t);
    }
  }

  lemma {:induction false} LastUpsertExists(log: seq<Record>, i: nat)
    requires i < |log| && log[i].Upsert?
    ensures LastUpsert(log, log[i].client.id).Some?
  {
    if i < |log| - 1 {
      LastUpsertExists(log[..|log| - 1], i);
    }
  }

  /** When every journaled client already has a record, replay changes no id and no position. */
  lemma {:induction false} KnownIdsStayInPlace(x: Live, log: seq<Record>, t: int)
    requires forall i :: 0 <= i < |log| && log[i].Upsert? ==> Clients.Lookup(x.clients, log[i].client.id).Some?
    ensures Clients.Ids(Effects(x, log, t).clients) == Clients.Ids(x.clients)
  {
    if |log| > 0 {
      var front, r := log[..|log| - 1], log[|log| - 1];
      KnownIdsStayInPlace(x, front, t);
      var y := Effects(x, front, t).clients;
      assert |Clients.Ids(y)| == |Clients.Ids(x.clients)|;
      if r.Upsert? {
        var i := Clients.IndexOf(x.clients, r.client.id);
        assert i < |x.clients|;
        assert Clients.Ids(y)[i] == Clients.Ids(x.clients)[i];
        assert Clients.IndexOf(y, r.client.id) < |y|;
      }
    }
  }

  /** Replaying a log over its own result changes nothing: the reason an unremoved journal is harmless. */
  lemma ReplayIsIdempotent(x: Live, log: seq<Record>, t: int)
    requires Clients.UniqueIds(x.clients)
    ensures Effects(Effects(x, log, t), log, t) == Effects(x, log, t)
  {
    var once := Effects(x, log, t);
    var twice := Effects(once, log, t);
    forall k
      ensures (k in twice.table <==> k in once.table) && (k in once.table ==> twice.table[k] == once.table[k])
    {
      var i := LastTouch(log, k, t);
      ReplayMeaning(x, log, t, k, i);
      ReplayMeaning(once, log, t, k, i);
    }
    assert twice.table == once.table;
    forall id
      ensures Clients.Lookup(twice.clients, id) == Clients.Lookup(once.clients, id)
    {
      ReplayMeaningForClients(x, log, t, id);
      ReplayMeaningForClients(once, log, t, id);
    }
    forall i | 0 <= i < |log| && log[i].Upsert?
      ensures Clients.Lookup(once.clients, log[i].client.id).Some?
    {
      LastUpsertExists(log, i);
      ReplayMeaningForClients(x, log, t, log[i].client.id);
    }
    KnownIdsStayInPlace(once, log, t);
    EffectsKeepUniqueIds(x, log, t);
    EffectsKeepUniqueIds(once, log, t);
    Clients.SameIdsSameRecords(twice.clients, once.clients);
  }
}
