/**
 What the cache store means: a finite map from keys to values with expiry times, under a memory
 ceiling. Every operation of the hash table and of recovery is specified against these functions.
 */
module CacheTable {
  import opened Bytes

  type Key = seq<byte>

  datatype Entry = Entry(value: seq<byte>, expires: int)

  type Table = map<Key, Entry>

  datatype Limits = Limits(memory: nat, maxKey: nat, maxValue: nat)

  datatype Status = Ok | NotFound | Expired | InvalidArgument | LimitExceeded

  /** sizeof(struct mp_cache_entry): six 8-byte members. */
  const NODE_BYTES: nat := 48

  function Cost(k: Key, v: seq<byte>): nat {
    NODE_BYTES + |k| + 1 + |v|
  }

  /** The bytes charged for a whole table. */
  ghost function TotalCost(t: Table): nat {
    if t == map[] then 0
    else
      var k :| k in t;
      Cost(k, t[k].value) + TotalCost(t - {k})
  }

  lemma {:induction false} TotalCostSplit(t: Table, k: Key)
    requires k in t
    ensures TotalCost(t) == Cost(k, t[k].value) + TotalCost(t - {k})
    decreases |t|
  {
    var p :| p in t && TotalCost(t) == Cost(p, t[p].value) + TotalCost(t - {p});
    if p != k {
      TotalCostSplit(t - {p}, k);
      TotalCostSplit(t - {k}, p);
      assert t - {p} - {k} == t - {k} - {p};
    }
  }

  function CostAt(t: Table, k: Key): nat {
    if k in t then Cost(k, t[k].value) else 0
  }

  /** Conservation: a write changes the charge by the new cost minus the replaced one. */
  lemma TotalCostUpdate(t: Table, k: Key, e: Entry)
    ensures TotalCost(t[k := e]) == TotalCost(t) - CostAt(t, k) + Cost(k, e.value)
    ensures CostAt(t, k) <= TotalCost(t)
  {
    TotalCostSplit(t[k := e], k);
    assert t[k := e] - {k} == t - {k};
    if k in t {
      TotalCostSplit(t, k);
    } else {
      assert t - {k} == t;
    }
  }

  lemma TotalCostRemove(t: Table, k: Key)
    ensures TotalCost(t - {k}) == TotalCost(t) - CostAt(t, k)
  {
    if k in t {
      TotalCostSplit(t, k);
    } else {
      assert t - {k} == t;
    }
  }

  ghost predicate SubTable(s: Table, t: Table) {
    forall k :: k in s ==> k in t && s[k] == t[k]
  }

  lemma {:induction false} TotalCostMonotone(s: Table, t: Table)
    requires SubTable(s, t)
    ensures TotalCost(s) <= TotalCost(t)
    decreases |s|
  {
    if s != map[] {
      var k :| k in s;
      TotalCostSplit(s, k);
      TotalCostSplit(t, k);
      TotalCostMonotone(s - {k}, t - {k});
    }
  }

  /** The entries a reader at time `now` can see. */
  function Active(t: Table, now: int): Table {
    map k | k in t && t[k].expires > now :: t[k]
  }

  predicate SizesAllowed(l: Limits, k: Key, v: seq<byte>) {
    0 < |k| <= l.maxKey && |v| <= l.maxValue
  }

  /** A write is admitted exactly when the sizes are allowed and the table after it fits. */
  ghost predicate Admits(l: Limits, t: Table, k: Key, v: seq<byte>) {
    SizesAllowed(l, k, v) && TotalCost(t[k := Entry(v, 0)]) <= l.memory
  }

  /** The charge does not depend on expiry times. */
  lemma CostIgnoresExpiry(t: Table, k: Key, v: seq<byte>, x: int, y: int)
    ensures TotalCost(t[k := Entry(v, x)]) == TotalCost(t[k := Entry(v, y)])
  {
    TotalCostUpdate(t, k, Entry(v, x));
    TotalCostUpdate(t, k, Entry(v, y));
  }

  ghost function Write(l: Limits, t: Table, k: Key, v: seq<byte>, expires: int): (r: (Status, Table)) {
    if Admits(l, t, k, v) then (Ok, t[k := Entry(v, expires)]) else (LimitExceeded, t)
  }

  /** Restoring from disk additionally refuses expiry times that are not positive. */
  ghost function Restore(l: Limits, t: Table, k: Key, v: seq<byte>, expires: int): (r: (Status, Table)) {
    if expires <= 0 then (InvalidArgument, t) else Write(l, t, k, v, expires)
  }

  function Get(t: Table, k: Key, now: int): (r: (Status, Table, Option<Entry>)) {
    if k !in t then (NotFound, t, None)
    else if t[k].expires <= now then (Expired, t - {k}, None)
    else (Ok, t, Some(t[k]))
  }

  function Delete(t: Table, k: Key): (r: (Status, Table)) {
    if k in t then (Ok, t - {k}) else (NotFound, t)
  }

  /** What every operation keeps: admissible sizes and a charge within the ceiling. */
  ghost predicate WithinLimits(l: Limits, t: Table) {
    && TotalCost(t) <= l.memory
    && forall k :: k in t ==> SizesAllowed(l, k, t[k].value)
  }

  lemma WriteKeepsLimits(l: Limits, t: Table, k: Key, v: seq<byte>, expires: int)
    requires WithinLimits(l, t)
    ensures WithinLimits(l, Write(l, t, k, v, expires).1)
  {
    CostIgnoresExpiry(t, k, v, 0, expires);
  }

  lemma SubTableKeepsLimits(l: Limits, s: Table, t: Table)
    requires WithinLimits(l, t) && SubTable(s, t)
    ensures WithinLimits(l, s)
  {
    TotalCostMonotone(s, t);
  }

  /** The listing enumerates a table: every entry once, in some order. */
  ghost predicate Lists(entries: seq<(Key, Entry)>, t: Table) {
    && (forall i, j :: 0 <= i < j < |entries| ==> entries[i].0 != entries[j].0)
    && (forall i :: 0 <= i < |entries| ==> entries[i].0 in t && t[entries[i].0] == entries[i].1)
    && (forall k :: k in t ==> exists i :: 0 <= i < |entries| && entries[i].0 == k)
  }

  /** The charge of a listing. */
  function ListingCost(entries: seq<(Key, Entry)>): nat {
    if |entries| == 0 then 0
    else ListingCost(entries[..|entries| - 1]) + Cost(entries[|entries| - 1].0, entries[|entries| - 1].1.value)
  }

  lemma {:induction false} ListingCostIsTotalCost(entries: seq<(Key, Entry)>, t: Table)
    requires Lists(entries, t)
    ensures ListingCost(entries) == TotalCost(t)
    decreases |entries|
  {
    if |entries| == 0 {
      assert t == map[] by {
        assert forall k :: k !in t;
      }
    } else {
      var front, k := entries[..|entries| - 1], entries[|entries| - 1].0;
      forall j | j in t - {k}
        ensures exists i :: 0 <= i < |front| && front[i].0 == j
      {
        var i :| 0 <= i < |entries| && entries[i].0 == j;
        assert front[i].0 == j;
      }
      ListingCostIsTotalCost(front, t - {k});
      TotalCostSplit(t, k);
    }
  }
}
