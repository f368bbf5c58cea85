/**
 The cache store itself: an array of buckets holding singly linked chains of entries, relinked in
 place, with running totals of entries and bytes. Every method refines the map operations of
 CacheTable.
 */
module HashStore {
  import opened Bytes
  import opened CacheTable

  class Node {
    const key: Key
    var next: Node?
    var value: seq<byte>
    var expires: int

    constructor (key: Key, value: seq<byte>, expires: int)
      ensures this.key == key && this.value == value && this.expires == expires && next == null
    {
      this.key, this.value, this.expires := key, value, expires;
      next := null;
    }
  }

  /** Unsigned 64-bit arithmetic. */
  function Wrap64(n: int): nat {
    n % TWO_64
  }

  /** No admissible write can push the byte count past 2^64. */
  predicate NeverWraps(l: Limits) {
    l.memory + NODE_BYTES + 1 + l.maxKey + l.maxValue < TWO_64
  }

  /** The ceiling test as the machine computes it. */
  predicate OverCeiling(l: Limits, used: nat, previous: nat, next: nat) {
    Wrap64(Wrap64(used - previous) + next) > l.memory
  }

  /** The test says what it should for this byte count, replaced cost and size. */
  predicate CeilingTestRight(l: Limits, used: nat, previous: nat, cost: nat) {
    OverCeiling(l, used, previous, cost) <==> used - previous + cost > l.memory
  }

  /**
   The machine's ceiling test means "over the ceiling" for every byte count up to the ceiling, every
   replaced cost and every admissible new cost if and only if the limits leave room below 2^64.
   */
  lemma CeilingTestIsRightExactlyWithoutWrap(l: Limits)
    requires l.memory < TWO_64 && l.maxKey < TWO_32 && l.maxValue < TWO_32
    ensures NeverWraps(l) <==>
            forall used: nat, previous: nat, cost: nat ::
              previous <= used <= l.memory && cost <= NODE_BYTES + 1 + l.maxKey + l.maxValue ==>
                CeilingTestRight(l, used, previous, cost)
  {
    if !NeverWraps(l) {
      var cost := NODE_BYTES + 1 + l.maxKey + l.maxValue;
      assert Wrap64(l.memory + cost) == l.memory + cost - TWO_64;
      assert !CeilingTestRight(l, l.memory, 0, cost);
    }
  }

  // ---------------------------------------------------------------- the linked shape as a value

  datatype Cell = Cell(next: Node?, entry: Entry)

  /** Bucket heads, the contents of every node, the chains they form and the table they stand for. */
  datatype Shape = Shape(heads: seq<Node?>, cells: map<Node, Cell>, chains: seq<seq<Node>>, table: Table)

  ghost function At(c: seq<Node>, j: nat): Node? {
    if j < |c| then c[j] else null
  }

  ghost predicate LinkOk(f: Key -> nat, s: Shape, i: nat, c: seq<Node>, j: nat)
    requires j < |c|
  {
    && c[j] in s.cells
    && s.cells[c[j]].next == At(c, j + 1)
    && f(c[j].key) == i
    && c[j].key in s.table && s.table[c[j].key] == s.cells[c[j]].entry
  }

  /** Chain `i` is linked in order, holds only keys of bucket `i`, each once, and matches the table. */
  ghost predicate ChainOk(f: Key -> nat, s: Shape, i: nat)
    requires i < |s.heads| == |s.chains|
  {
    var c := s.chains[i];
    && s.heads[i] == At(c, 0)
    && (forall j :: 0 <= j < |c| ==> LinkOk(f, s, i, c, j))
    && (forall j, m :: 0 <= j < m < |c| ==> c[j].key != c[m].key)
  }

  ghost predicate Found(f: Key -> nat, s: Shape, k: Key) {
    f(k) < |s.chains| && exists j :: 0 <= j < |s.chains[f(k)]| && s.chains[f(k)][j].key == k
  }

  ghost predicate WellLinked(f: Key -> nat, s: Shape) {
    && |s.heads| == |s.chains|
    && (forall k :: f(k) < |s.heads|)
    && (forall i :: 0 <= i < |s.heads| ==> ChainOk(f, s, i))
    && (forall k :: k in s.table ==> Found(f, s, k))
  }

  /** The same invariant folded over the buckets, so that proofs about the heap need not see inside it. */
  ghost predicate FoldedTo(f: Key -> nat, s: Shape, n: nat) {
    if n == 0 then
      (forall k :: f(k) < |s.heads|) && (forall k :: k in s.table ==> Found(f, s, k))
    else
      n <= |s.heads| == |s.chains| && ChainOk(f, s, n - 1) && FoldedTo(f, s, n - 1)
  }

  ghost predicate ShapeOk(f: Key -> nat, s: Shape) {
    |s.heads| == |s.chains| && FoldedTo(f, s, |s.heads|)
  }

  lemma {:induction false} Unfold(f: Key -> nat, s: Shape, n: nat)
    requires |s.heads| == |s.chains| && n <= |s.heads| && FoldedTo(f, s, n)
    ensures forall i :: 0 <= i < n ==> ChainOk(f, s, i)
    ensures FoldedTo(f, s, 0)
  {
    if n > 0 {
      Unfold(f, s, n - 1);
    }
  }

  lemma {:induction false} Fold(f: Key -> nat, s: Shape, n: nat)
    requires WellLinked(f, s) && n <= |s.heads|
    ensures FoldedTo(f, s, n)
  {
    if n > 0 {
      Fold(f, s, n - 1);
    }
  }

  lemma ShapeOkMeans(f: Key -> nat, s: Shape)
    ensures ShapeOk(f, s) <==> WellLinked(f, s)
  {
    if ShapeOk(f, s) {
      Unfold(f, s, |s.heads|);
    }
    if WellLinked(f, s) {
      Fold(f, s, |s.heads|);
    }
  }

  ghost function Without(c: seq<Node>, j: nat): seq<Node>
    requires j < |c|
  {
    c[..j] + c[j + 1..]
  }

  /** Bucket heads and nodes after storing `target` into a slot: the next field of `prev`, or the head of bucket `i`. */
  ghost function Slotted(heads: seq<Node?>, cells: map<Node, Cell>, i: nat, prev: Node?, target: Node?)
      : (seq<Node?>, map<Node, Cell>)
    requires i < |heads|
  {
    if prev == null then (heads[i := target], cells)
    else if prev in cells then (heads, cells[prev := cells[prev].(next := target)])
    else (heads, cells)
  }

  ghost function Before(c: seq<Node>, j: nat): Node?
    requires j <= |c|
  {
    if j == 0 then null else c[j - 1]
  }

  /** The shape after relinking around position `j` of chain `i`. */
  ghost function Unlinked(s: Shape, i: nat, j: nat): Shape
    requires i < |s.heads| == |s.chains| && j < |s.chains[i]|
  {
    var c := s.chains[i];
    var slot := Slotted(s.heads, s.cells, i, Before(c, j), At(c, j + 1));
    Shape(slot.0, slot.1, s.chains[i := Without(c, j)], s.table - {c[j].key})
  }

  lemma UnlinkedChain(f: Key -> nat, s: Shape, i: nat, j: nat)
    requires WellLinked(f, s) && i < |s.heads| && j < |s.chains[i]| && ChainOk(f, s, i)
    requires j > 0 ==> LinkOk(f, s, i, s.chains[i], j - 1)
    ensures ChainOk(f, Unlinked(s, i, j), i)
  {
    var c, s' := s.chains[i], Unlinked(s, i, j);
    var rest := s'.chains[i];
    forall a | 0 <= a < |rest|
      ensures LinkOk(f, s', i, rest, a)
    {
      var b := if a < j then a else a + 1;
      assert rest[a] == c[b] && LinkOk(f, s, i, c, b);
      assert At(rest, a + 1) == At(c, if a + 1 < j then a + 1 else a + 2);
    }
  }

  lemma UnlinkedOtherChain(f: Key -> nat, s: Shape, i: nat, j: nat, m: nat)
    requires WellLinked(f, s) && i < |s.heads| && j < |s.chains[i]|
    requires ChainOk(f, s, i) && LinkOk(f, s, i, s.chains[i], j)
    requires j > 0 ==> LinkOk(f, s, i, s.chains[i], j - 1)
    requires m < |s.heads| && m != i
    ensures ChainOk(f, Unlinked(s, i, j), m)
  {
    var c, s' := s.chains[m], Unlinked(s, i, j);
    assert ChainOk(f, s, m);
    forall a | 0 <= a < |c|
      ensures LinkOk(f, s', m, c, a)
    {
      assert LinkOk(f, s, m, c, a);
    }
  }

  lemma UnlinkedKey(f: Key -> nat, s: Shape, i: nat, j: nat, k: Key)
    requires WellLinked(f, s) && i < |s.heads| && j < |s.chains[i]|
    requires k in s.table && k != s.chains[i][j].key
    ensures Found(f, Unlinked(s, i, j), k)
  {
    var s' := Unlinked(s, i, j);
    assert Found(f, s, k);
    var a :| 0 <= a < |s.chains[f(k)]| && s.chains[f(k)][a].key == k;
    var b := if f(k) == i && a > j then a - 1 else a;
    assert s'.chains[f(k)][b] == s.chains[f(k)][a];
  }

  /** Relinking around an entry leaves well-formed chains for the table without its key. */
  lemma UnlinkKeepsShape(f: Key -> nat, s: Shape, i: nat, j: nat)
    requires WellLinked(f, s) && i < |s.heads| && j < |s.chains[i]|
    ensures WellLinked(f, Unlinked(s, i, j))
  {
    var s' := Unlinked(s, i, j);
    assert ChainOk(f, s, i);
    assert LinkOk(f, s, i, s.chains[i], j);
    assert j > 0 ==> LinkOk(f, s, i, s.chains[i], j - 1);
    UnlinkedChain(f, s, i, j);
    forall m | 0 <= m < |s.heads| && m != i { UnlinkedOtherChain(f, s, i, j, m); }
    forall k | k in s'.table { UnlinkedKey(f, s, i, j, k); }
  }

  /** The shape after hanging a new node at the end of its chain. */
  ghost function Linked(s: Shape, i: nat, n: Node, e: Entry): Shape
    requires i < |s.heads| == |s.chains|
  {
    var c := s.chains[i];
    var slot := Slotted(s.heads, s.cells, i, Before(c, |c|), n);
    Shape(slot.0, slot.1[n := Cell(null, e)], s.chains[i := c + [n]], s.table[n.key := e])
  }

  lemma LinkedChain(f: Key -> nat, s: Shape, n: Node, e: Entry)
    requires WellLinked(f, s) && n !in s.cells && n.key !in s.table
    requires var c := s.chains[f(n.key)]; |c| > 0 ==> c[|c| - 1] in s.cells
    ensures ChainOk(f, Linked(s, f(n.key), n, e), f(n.key))
  {
    var i := f(n.key);
    var c, s' := s.chains[i], Linked(s, i, n, e);
    assert ChainOk(f, s, i);
    forall a | 0 <= a < |c|
      ensures LinkOk(f, s', i, c + [n], a) && c[a].key != n.key
    {
      assert LinkOk(f, s, i, c, a);
      assert (c + [n])[a] == c[a];
    }
  }

  lemma LinkedOtherChain(f: Key -> nat, s: Shape, n: Node, e: Entry, m: nat)
    requires WellLinked(f, s) && n !in s.cells && n.key !in s.table
    requires var c := s.chains[f(n.key)]; |c| > 0 ==> c[|c| - 1] in s.cells && f(c[|c| - 1].key) == f(n.key)
    requires m < |s.heads| && m != f(n.key)
    ensures ChainOk(f, Linked(s, f(n.key), n, e), m)
  {
    var s' := Linked(s, f(n.key), n, e);
    var c := s.chains[m];
    assert ChainOk(f, s, m);
    forall a | 0 <= a < |c|
      ensures LinkOk(f, s', m, c, a)
    {
      assert LinkOk(f, s, m, c, a);
    }
  }

  lemma LinkKeepsShape(f: Key -> nat, s: Shape, n: Node, e: Entry)
    requires WellLinked(f, s) && n !in s.cells && n.key !in s.table
    ensures WellLinked(f, Linked(s, f(n.key), n, e))
  {
    var i := f(n.key);
    var c, s' := s.chains[i], Linked(s, i, n, e);
    assert ChainOk(f, s, i);
    assert |c| > 0 ==> LinkOk(f, s, i, c, |c| - 1);
    LinkedChain(f, s, n, e);
    forall m | 0 <= m < |s.heads| && m != i { LinkedOtherChain(f, s, n, e, m); }
    forall k | k in s'.table
      ensures Found(f, s', k)
    {
      if k == n.key {
        assert s'.chains[i][|c|].key == k;
      } else {
        assert Found(f, s, k);
        var a :| 0 <= a < |s.chains[f(k)]| && s.chains[f(k)][a].key == k;
        assert s'.chains[f(k)][a].key == k;
      }
    }
  }

  /** The shape after replacing the entry of a linked node. */
  ghost function Rewritten(s: Shape, n: Node, e: Entry): Shape
    requires n in s.cells
  {
    s.(cells := s.cells[n := s.cells[n].(entry := e)], table := s.table[n.key := e])
  }

  lemma RewriteKeepsShape(f: Key -> nat, s: Shape, i: nat, j: nat, e: Entry)
    requires WellLinked(f, s) && i < |s.heads| && j < |s.chains[i]|
    requires s.chains[i][j] in s.cells
    ensures WellLinked(f, Rewritten(s, s.chains[i][j], e))
  {
    var n := s.chains[i][j];
    var s' := Rewritten(s, n, e);
    assert ChainOk(f, s, i);
    assert LinkOk(f, s, i, s.chains[i], j);
    forall m | 0 <= m < |s.heads|
      ensures ChainOk(f, s', m)
    {
      assert ChainOk(f, s, m);
      forall a | 0 <= a < |s.chains[m]|
        ensures LinkOk(f, s', m, s.chains[m], a)
      {
        assert LinkOk(f, s, m, s.chains[m], a);
      }
    }
    forall k | k in s'.table
      ensures Found(f, s', k)
    {
      assert k == n.key || Found(f, s, k);
      if k == n.key {
        assert s'.chains[f(k)][j].key == k;
      }
    }
  }

  /** The chains are well formed, and the running totals and the limits are those of the table. */
  ghost predicate Accounted(l: Limits, f: Key -> nat, s: Shape, count: int, bytes: int) {
    && NeverWraps(l)
    && ShapeOk(f, s)
    && count == |s.table|
    && bytes == TotalCost(s.table)
    && WithinLimits(l, s.table)
  }

  lemma BucketFacts(f: Key -> nat, s: Shape, k: Key)
    requires ShapeOk(f, s)
    ensures f(k) < |s.heads| && s.heads[f(k)] == At(s.chains[f(k)], 0)
    ensures k in s.table ==> Found(f, s, k)
  {
    ShapeOkMeans(f, s);
    assert ChainOk(f, s, f(k));
  }

  lemma HeadFacts(f: Key -> nat, s: Shape, i: nat)
    requires ShapeOk(f, s) && i < |s.heads|
    ensures s.heads[i] == At(s.chains[i], 0)
  {
    ShapeOkMeans(f, s);
    assert ChainOk(f, s, i);
  }

  lemma SlotFacts(f: Key -> nat, s: Shape, i: nat, j: nat)
    requires ShapeOk(f, s) && i < |s.heads| && j < |s.chains[i]|
    ensures var c := s.chains[i];
            && c[j] in s.cells && c[j].key in s.table && s.cells[c[j]] == Cell(At(c, j + 1), s.table[c[j].key])
            && s.heads[i] == c[0] && (j > 0 ==> c[j - 1] in s.cells)
  {
    ShapeOkMeans(f, s);
    assert ChainOk(f, s, i);
    assert LinkOk(f, s, i, s.chains[i], j);
    assert j > 0 ==> LinkOk(f, s, i, s.chains[i], j - 1);
  }

  lemma UnlinkKeepsAccounts(l: Limits, f: Key -> nat, s: Shape, count: nat, bytes: nat, i: nat, j: nat)
    requires Accounted(l, f, s, count, bytes) && i < |s.heads| && j < |s.chains[i]|
    ensures var k := s.chains[i][j].key;
            && k in s.table && Cost(k, s.table[k].value) <= bytes && count > 0
            && Accounted(l, f, Unlinked(s, i, j), count - 1, bytes - Cost(k, s.table[k].value))
  {
    var k := s.chains[i][j].key;
    SlotFacts(f, s, i, j);
    ShapeOkMeans(f, s);
    UnlinkKeepsShape(f, s, i, j);
    ShapeOkMeans(f, Unlinked(s, i, j));
    TotalCostSplit(s.table, k);
    SubTableKeepsLimits(l, s.table - {k}, s.table);
  }

  lemma LinkKeepsAccounts(l: Limits, f: Key -> nat, s: Shape, count: nat, bytes: nat, n: Node, e: Entry)
    requires Accounted(l, f, s, count, bytes) && n !in s.cells && n.key !in s.table && f(n.key) < |s.heads|
    requires Admits(l, s.table, n.key, e.value)
    ensures Accounted(l, f, Linked(s, f(n.key), n, e), count + 1, bytes + Cost(n.key, e.value))
  {
    ShapeOkMeans(f, s);
    LinkKeepsShape(f, s, n, e);
    ShapeOkMeans(f, Linked(s, f(n.key), n, e));
    TotalCostUpdate(s.table, n.key, e);
    WriteKeepsLimits(l, s.table, n.key, e.value, e.expires);
  }

  lemma RewriteKeepsAccounts(l: Limits, f: Key -> nat, s: Shape, count: nat, bytes: nat, i: nat, j: nat, e: Entry)
    requires Accounted(l, f, s, count, bytes) && i < |s.heads| && j < |s.chains[i]|
    requires s.chains[i][j] in s.cells && s.chains[i][j].key in s.table
    requires Admits(l, s.table, s.chains[i][j].key, e.value)
    ensures var k := s.chains[i][j].key;
            Accounted(l, f, Rewritten(s, s.chains[i][j], e), count, bytes - CostAt(s.table, k) + Cost(k, e.value))
  {
    var k := s.chains[i][j].key;
    ShapeOkMeans(f, s);
    RewriteKeepsShape(f, s, i, j, e);
    ShapeOkMeans(f, Rewritten(s, s.chains[i][j], e));
    TotalCostUpdate(s.table, k, e);
    WriteKeepsLimits(l, s.table, k, e.value, e.expires);
    assert s.table[k := e].Keys == s.table.Keys;
  }

  /** The ceiling test and the new byte count, in the machine's arithmetic. */
  method Charge(l: Limits, used: nat, previous: nat, cost: nat) returns (over: bool, total: nat)
    requires NeverWraps(l) && previous <= used <= l.memory && cost <= NODE_BYTES + 1 + l.maxKey + l.maxValue
    ensures over <==> used - previous + cost > l.memory
    ensures total == used - previous + cost
  {
    over := OverCeiling(l, used, previous, cost);
    total := Wrap64(Wrap64(used - previous) + cost);
  }

  lemma ChargeDecidesAdmission(l: Limits, t: Table, k: Key, v: seq<byte>)
    requires WithinLimits(l, t) && SizesAllowed(l, k, v)
    ensures Admits(l, t, k, v) <==> TotalCost(t) - CostAt(t, k) + Cost(k, v) <= l.memory
    ensures CostAt(t, k) <= TotalCost(t)
  {
    TotalCostUpdate(t, k, Entry(v, 0));
  }

  // ---------------------------------------------------------------- walking the chains

  /** The first `upto` entries of chain `m` are unexpired. */
  ghost predicate Unexpired(s: Shape, m: nat, upto: nat, now: int)
    requires m < |s.chains| && upto <= |s.chains[m]|
  {
    forall a :: 0 <= a < upto ==> s.chains[m][a].key in s.table && s.table[s.chains[m][a].key].expires > now
  }

  /** `t` is `s` without some expired entries. */
  ghost predicate Swept(s: Table, t: Table, now: int) {
    SubTable(t, s) && forall k :: k in s && k !in t ==> s[k].expires <= now
  }

  lemma SweptAgain(s: Table, t: Table, k: Key, now: int)
    requires Swept(s, t, now) && k in t && t[k].expires <= now
    ensures Swept(s, t - {k}, now) && |t - {k}| == |t| - 1
  {
    assert (t - {k}).Keys == t.Keys - {k};
  }

  lemma ChainEnd(f: Key -> nat, s: Shape, i: nat)
    requires ShapeOk(f, s) && i < |s.heads|
    ensures var c := s.chains[i]; |c| > 0 ==> c[|c| - 1] in s.cells
  {
    ShapeOkMeans(f, s);
    assert ChainOk(f, s, i);
    if |s.chains[i]| > 0 {
      SlotFacts(f, s, i, |s.chains[i]| - 1);
    }
  }

  lemma UnlinkKeepsUnexpired(f: Key -> nat, s: Shape, i: nat, j: nat, now: int)
    requires ShapeOk(f, s) && i < |s.heads| && j < |s.chains[i]|
    ensures Unexpired(s, i, j, now) ==> Unexpired(Unlinked(s, i, j), i, j, now)
    ensures forall m :: 0 <= m < i && Unexpired(s, m, |s.chains[m]|, now) ==>
              Unexpired(Unlinked(s, i, j), m, |s.chains[m]|, now)
  {
    ShapeOkMeans(f, s);
    var c := s.chains[i];
    assert ChainOk(f, s, i);
    assert LinkOk(f, s, i, c, j);
    assert forall a :: 0 <= a < j ==> Without(c, j)[a] == c[a];
    forall m, a | 0 <= m < i && 0 <= a < |s.chains[m]|
      ensures s.chains[m][a].key != c[j].key
    {
      assert ChainOk(f, s, m);
      assert LinkOk(f, s, m, s.chains[m], a);
    }
  }

  /** A sweep of `t` has dealt with the chains before `i` and the first `j` entries of chain `i`. */
  ghost predicate Sweeping(t: Table, s: Shape, i: nat, j: nat, now: int, removed: int) {
    && i < |s.heads| == |s.chains| && j <= |s.chains[i]|
    && Swept(t, s.table, now) && removed == |t| - |s.table|
    && Unexpired(s, i, j, now)
    && (forall m :: 0 <= m < i ==> Unexpired(s, m, |s.chains[m]|, now))
  }

  /** Dropping the expired entry at position `j` brings the next one there. */
  lemma SweepDrops(t: Table, f: Key -> nat, s: Shape, i: nat, j: nat, now: int, removed: int)
    requires ShapeOk(f, s) && Sweeping(t, s, i, j, now, removed) && j < |s.chains[i]|
    requires var k := s.chains[i][j].key; k in s.table && s.table[k].expires <= now
    ensures Sweeping(t, Unlinked(s, i, j), i, j, now, removed + 1)
    ensures var c, d := s.chains[i], Unlinked(s, i, j).chains[i];
            |d| == |c| - 1 && At(d, j) == At(c, j + 1) && Before(d, j) == Before(c, j)
  {
    UnlinkKeepsUnexpired(f, s, i, j, now);
    SweptAgain(t, s.table, s.chains[i][j].key, now);
  }

  lemma AllUnexpired(f: Key -> nat, s: Shape, now: int)
    requires ShapeOk(f, s)
    requires forall m :: 0 <= m < |s.chains| ==> Unexpired(s, m, |s.chains[m]|, now)
    ensures forall k :: k in s.table ==> s.table[k].expires > now
  {
    ShapeOkMeans(f, s);
    forall k | k in s.table
      ensures s.table[k].expires > now
    {
      assert Found(f, s, k);
      var a :| 0 <= a < |s.chains[f(k)]| && s.chains[f(k)][a].key == k;
      assert Unexpired(s, f(k), |s.chains[f(k)]|, now);
    }
  }

  /** The listing holds exactly the entries of the chains before `i` and the first `j` of chain `i`. */
  ghost predicate ListedTo(f: Key -> nat, s: Shape, listing: seq<(Key, Entry)>, i: nat, j: nat)
    requires |s.chains| > i ==> j <= |s.chains[i]|
    requires i <= |s.chains|
  {
    && (forall x, y :: 0 <= x < y < |listing| ==> listing[x].0 != listing[y].0)
    && (forall x :: 0 <= x < |listing| ==>
          && listing[x].0 in s.table && s.table[listing[x].0] == listing[x].1
          && (f(listing[x].0) < i || (f(listing[x].0) == i < |s.chains| &&
              exists a :: 0 <= a < j && s.chains[i][a].key == listing[x].0)))
    && (forall m, a :: 0 <= m < i && 0 <= a < |s.chains[m]| ==> Lists1(listing, s.chains[m][a].key))
    && (i < |s.chains| ==> forall a :: 0 <= a < j ==> Lists1(listing, s.chains[i][a].key))
  }

  ghost predicate Lists1(listing: seq<(Key, Entry)>, k: Key) {
    exists x :: 0 <= x < |listing| && listing[x].0 == k
  }

  lemma KeyNotYetListed(f: Key -> nat, s: Shape, listing: seq<(Key, Entry)>, i: nat, j: nat)
    requires ShapeOk(f, s) && i < |s.heads| && j < |s.chains[i]| && ListedTo(f, s, listing, i, j)
    ensures f(s.chains[i][j].key) == i
    ensures forall x :: 0 <= x < |listing| ==> listing[x].0 != s.chains[i][j].key
  {
    ShapeOkMeans(f, s);
    assert ChainOk(f, s, i);
    assert LinkOk(f, s, i, s.chains[i], j);
  }

  lemma ListsMore(listing: seq<(Key, Entry)>, x: (Key, Entry), k: Key)
    requires Lists1(listing, k) || k == x.0
    ensures Lists1(listing + [x], k)
  {
    var next := listing + [x];
    if Lists1(listing, k) {
      var i :| 0 <= i < |listing| && listing[i].0 == k;
      assert next[i].0 == k;
    } else {
      assert next[|listing|].0 == k;
    }
  }

  lemma ListNext(f: Key -> nat, s: Shape, listing: seq<(Key, Entry)>, i: nat, j: nat)
    requires ShapeOk(f, s) && i < |s.heads| && j < |s.chains[i]| && ListedTo(f, s, listing, i, j)
    ensures var k := s.chains[i][j].key;
            k in s.table && ListedTo(f, s, listing + [(k, s.table[k])], i, j + 1)
  {
    SlotFacts(f, s, i, j);
    KeyNotYetListed(f, s, listing, i, j);
    var x := (s.chains[i][j].key, s.table[s.chains[i][j].key]);
    forall k | Lists1(listing, k) || k == x.0 { ListsMore(listing, x, k); }
  }

  lemma ListNextChain(f: Key -> nat, s: Shape, listing: seq<(Key, Entry)>, i: nat)
    requires ShapeOk(f, s) && i < |s.heads| && ListedTo(f, s, listing, i, |s.chains[i]|)
    ensures ListedTo(f, s, listing, i + 1, 0)
  {
    ShapeOkMeans(f, s);
  }

  lemma ListedAll(f: Key -> nat, s: Shape, listing: seq<(Key, Entry)>)
    requires ShapeOk(f, s) && ListedTo(f, s, listing, |s.chains|, 0)
    ensures Lists(listing, s.table)
  {
    ShapeOkMeans(f, s);
    forall k | k in s.table
      ensures exists x :: 0 <= x < |listing| && listing[x].0 == k
    {
      assert Found(f, s, k);
      var a :| 0 <= a < |s.chains[f(k)]| && s.chains[f(k)][a].key == k;
      assert Lists1(listing, s.chains[f(k)][a].key);
    }
  }

  // ---------------------------------------------------------------- the store

  ghost function CellsOf(ns: set<Node>): map<Node, Cell>
    reads ns
  {
    map n | n in ns :: Cell(n.next, Entry(n.value, n.expires))
  }

  method Relink(buckets: array<Node?>, ghost ns: set<Node>, i: nat, prev: Node?, target: Node?)
    requires i < buckets.Length && (prev != null ==> prev in ns)
    modifies buckets, ns
    ensures (buckets[..], CellsOf(ns)) == old(Slotted(buckets[..], CellsOf(ns), i, prev, target))
  {
    if prev == null {
      buckets[i] := target;
    } else {
      prev.next := target;
      assert CellsOf(ns) == old(CellsOf(ns))[prev := old(CellsOf(ns)[prev]).(next := target)];
    }
  }

  ghost function Cleared(s: Shape, heads: seq<Node?>): Shape {
    Shape(heads, s.cells, seq(|heads|, i => []), map[])
  }

  lemma ClearedIsAccounted(l: Limits, f: Key -> nat, s: Shape, count: int, bytes: int, heads: seq<Node?>)
    requires Accounted(l, f, s, count, bytes)
    requires |heads| == |s.heads| && forall i :: 0 <= i < |heads| ==> heads[i] == null
    ensures Accounted(l, f, Cleared(s, heads), 0, 0)
  {
    ShapeOkMeans(f, s);
    ShapeOkMeans(f, Cleared(s, heads));
  }

  /** The first `i` chains have been swept. */
  ghost predicate SweptTo(t: Table, s: Shape, i: nat, now: int, removed: int) {
    if i < |s.heads| then Sweeping(t, s, i, 0, now, removed)
    else s.table == Active(t, now) && removed == |t| - |s.table|
  }

  lemma SweptNext(t: Table, f: Key -> nat, s: Shape, i: nat, now: int, removed: int)
    requires ShapeOk(f, s) && i < |s.chains| && Sweeping(t, s, i, |s.chains[i]|, now, removed)
    ensures SweptTo(t, s, i + 1, now, removed)
  {
    if i + 1 == |s.heads| {
      AllUnexpired(f, s, now);
    }
  }

  class Store {
    const limits: Limits
    /** The key's hash modulo the number of buckets. */
    const bucketOf: Key -> nat
    const buckets: array<Node?>
    var entryCount: nat
    var bytesUsed: nat

    /** The linked shape, and every node it uses. */
    ghost var shape: Shape
    ghost var nodes: set<Node>

    ghost function Table(): Table
      reads this
    {
      shape.table
    }

    ghost predicate Valid()
      reads this, buckets, nodes
    {
      Accounted(limits, bucketOf, shape, entryCount, bytesUsed) && InMemory()
    }

    /** The shape is what the array and the nodes hold. */
    ghost predicate InMemory()
      reads this, buckets, nodes
    {
      shape.heads == buckets[..] && shape.cells == CellsOf(nodes)
    }

    constructor (limits: Limits, bucketCount: nat, hash: Key -> nat)
      requires bucketCount > 0 && NeverWraps(limits)
      ensures Valid() && Table() == map[] && this.limits == limits && nodes == {}
      ensures forall k :: bucketOf(k) == hash(k) % bucketCount
      ensures buckets.Length == bucketCount && fresh(buckets)
    {
      this.limits := limits;
      bucketOf := k => hash(k) % bucketCount;
      buckets := new Node?[bucketCount](i => null);
      entryCount, bytesUsed := 0, 0;
      nodes := {};
      new;
      shape := Shape(buckets[..], map[], seq(bucketCount, i => []), map[]);
      ShapeOkMeans(bucketOf, shape);
    }

    /** The slot that holds the key, or the end of its bucket's chain. */
    method FindSlot(k: Key) returns (i: nat, prev: Node?, cur: Node?, ghost j: nat)
      requires Valid()
      ensures i == bucketOf(k) && i < |shape.chains| && j <= |shape.chains[i]|
      ensures cur == At(shape.chains[i], j) && prev == Before(shape.chains[i], j)
      ensures cur != null <==> k in shape.table
      ensures cur != null ==> cur in nodes && cur.key == k && shape.table[k] == Entry(cur.value, cur.expires)
    {
      i := bucketOf(k);
      BucketFacts(bucketOf, shape, k);
      ghost var c := shape.chains[i];
      prev, cur, j := null, buckets[i], 0;
      while cur != null && cur.key != k
        invariant j <= |c| && cur == At(c, j)
        invariant prev == Before(c, j)
        invariant forall m :: 0 <= m < j ==> c[m].key != k
        decreases |c| - j
      {
        SlotFacts(bucketOf, shape, i, j);
        prev, cur, j := cur, cur.next, j + 1;
      }
      if j < |c| {
        SlotFacts(bucketOf, shape, i, j);
      }
    }

    /** Take the node at position `j` of chain `i` out of its chain and off the totals. */
    method Unlink(i: nat, prev: Node?, cur: Node, ghost j: nat)
      requires InMemory() && i < |shape.heads| == |shape.chains| && j < |shape.chains[i]|
      requires cur == shape.chains[i][j] && prev == Before(shape.chains[i], j)
      requires cur in nodes && shape.cells[cur].next == At(shape.chains[i], j + 1)
      requires prev != null ==> prev in nodes
      requires entryCount > 0 && Cost(cur.key, cur.value) <= bytesUsed
      modifies this, buckets, nodes
      ensures InMemory() && nodes == old(nodes)
      ensures shape == Unlinked(old(shape), i, j)
      ensures entryCount == old(entryCount) - 1 && bytesUsed == old(bytesUsed) - Cost(cur.key, old(cur.value))
    {
      bytesUsed := bytesUsed - Cost(cur.key, cur.value);
      entryCount := entryCount - 1;
      ghost var after := Unlinked(shape, i, j);
      Relink(buckets, nodes, i, prev, cur.next);
      shape := after;
    }

    /** Remove the entry in a slot. */
    method RemoveAt(i: nat, prev: Node?, cur: Node, ghost j: nat)
      requires Valid() && i < |shape.chains| && j < |shape.chains[i]|
      requires cur == shape.chains[i][j] && prev == Before(shape.chains[i], j)
      modifies this, buckets, nodes
      ensures Valid() && nodes == old(nodes)
      ensures shape == Unlinked(old(shape), i, j)
    {
      SlotFacts(bucketOf, shape, i, j);
      UnlinkKeepsAccounts(limits, bucketOf, shape, entryCount, bytesUsed, i, j);
      Unlink(i, prev, cur, j);
    }

    method Delete(k: Key) returns (status: Status)
      requires Valid()
      modifies this, buckets, nodes
      ensures Valid() && nodes == old(nodes)
      ensures (status, Table()) == CacheTable.Delete(old(Table()), k)
    {
      var i, prev, cur, j := FindSlot(k);
      if cur == null {
        return NotFound;
      }
      RemoveAt(i, prev, cur, j);
      return Ok;
    }

    /** Hang a fresh node at the end of chain `i`. */
    method Link(i: nat, prev: Node?, n: Node)
      requires InMemory() && i < |shape.heads| == |shape.chains|
      requires prev == Before(shape.chains[i], |shape.chains[i]|) && (prev != null ==> prev in nodes)
      requires n !in nodes && n.next == null
      modifies this, buckets, nodes
      ensures InMemory() && nodes == old(nodes) + {n}
      ensures shape == Linked(old(shape), i, n, Entry(n.value, n.expires))
      ensures entryCount == old(entryCount) + 1 && bytesUsed == old(bytesUsed)
    {
      ghost var after := Linked(shape, i, n, Entry(n.value, n.expires));
      Relink(buckets, nodes, i, prev, n);
      ghost var slot := CellsOf(nodes);
      nodes := nodes + {n};
      assert CellsOf(nodes) == slot[n := Cell(null, Entry(n.value, n.expires))];
      entryCount := entryCount + 1;
      shape := after;
    }

    /** Replace the contents of a linked node. */
    method Rewrite(n: Node, v: seq<byte>, e: int)
      requires InMemory() && n in nodes
      modifies this, nodes
      ensures InMemory() && nodes == old(nodes)
      ensures shape == Rewritten(old(shape), n, Entry(v, e))
      ensures entryCount == old(entryCount) && bytesUsed == old(bytesUsed)
    {
      ghost var after := Rewritten(shape, n, Entry(v, e));
      n.value, n.expires := v, e;
      assert CellsOf(nodes) == after.cells;
      shape := after;
    }

    /** Insert or replace one entry, refusing what the limits refuse. */
    method WriteEntry(k: Key, v: seq<byte>, e: int) returns (status: Status)
      requires Valid()
      modifies this, buckets, nodes
      ensures Valid() && old(nodes) <= nodes && fresh(nodes - old(nodes))
      ensures (status, Table()) == CacheTable.Write(limits, old(Table()), k, v, e)
    {
      if !(0 < |k| <= limits.maxKey) || |v| > limits.maxValue {
        return LimitExceeded;
      }
      var i, prev, cur, j := FindSlot(k);
      var previous := if cur == null then 0 else Cost(cur.key, cur.value);
      ChargeDecidesAdmission(limits, shape.table, k, v);
      var over, total := Charge(limits, bytesUsed, previous, Cost(k, v));
      if over {
        return LimitExceeded;
      }
      if cur == null {
        InsertNew(i, prev, k, v, e, total);
      } else {
        OverwriteAt(i, cur, j, v, e, total);
      }
      return Ok;
    }

    method InsertNew(i: nat, prev: Node?, k: Key, v: seq<byte>, e: int, total: nat)
      requires Valid() && i == bucketOf(k) && i < |shape.chains|
      requires prev == Before(shape.chains[i], |shape.chains[i]|)
      requires k !in Table() && Admits(limits, Table(), k, v) && total == bytesUsed + Cost(k, v)
      modifies this, buckets, nodes
      ensures Valid() && old(nodes) <= nodes && fresh(nodes - old(nodes))
      ensures Table() == old(Table())[k := Entry(v, e)]
    {
      var n := new Node(k, v, e);
      ChainEnd(bucketOf, shape, i);
      LinkKeepsAccounts(limits, bucketOf, shape, entryCount, bytesUsed, n, Entry(v, e));
      Insert(i, prev, n, total);
    }

    method OverwriteAt(i: nat, cur: Node, ghost j: nat, v: seq<byte>, e: int, total: nat)
      requires Valid() && i < |shape.chains| && j < |shape.chains[i]| && cur == shape.chains[i][j]
      requires Admits(limits, Table(), cur.key, v)
      requires total == bytesUsed - CostAt(Table(), cur.key) + Cost(cur.key, v)
      modifies this, nodes
      ensures Valid() && nodes == old(nodes)
      ensures Table() == old(Table())[cur.key := Entry(v, e)]
    {
      SlotFacts(bucketOf, shape, i, j);
      RewriteKeepsAccounts(limits, bucketOf, shape, entryCount, bytesUsed, i, j, Entry(v, e));
      Overwrite(cur, v, e, total);
    }

    method Insert(i: nat, prev: Node?, n: Node, total: nat)
      requires InMemory() && i < |shape.heads| == |shape.chains|
      requires prev == Before(shape.chains[i], |shape.chains[i]|) && (prev != null ==> prev in nodes)
      requires n !in nodes && n.next == null
      requires Accounted(limits, bucketOf, Linked(shape, i, n, Entry(n.value, n.expires)), entryCount + 1, total)
      modifies this, buckets, nodes
      ensures Valid() && nodes == old(nodes) + {n}
      ensures Table() == old(Table())[n.key := Entry(n.value, n.expires)]
    {
      Link(i, prev, n);
      bytesUsed := total;
    }

    method Overwrite(cur: Node, v: seq<byte>, e: int, total: nat)
      requires InMemory() && cur in nodes
      requires Accounted(limits, bucketOf, Rewritten(shape, cur, Entry(v, e)), entryCount, total)
      modifies this, nodes
      ensures Valid() && nodes == old(nodes)
      ensures Table() == old(Table())[cur.key := Entry(v, e)]
    {
      Rewrite(cur, v, e);
      bytesUsed := total;
    }

    method Set(k: Key, v: seq<byte>, ttl: nat, now: int) returns (status: Status)
      requires Valid()
      modifies this, buckets, nodes
      ensures Valid() && old(nodes) <= nodes && fresh(nodes - old(nodes))
      ensures (status, Table()) ==
              if ttl == 0 then (InvalidArgument, old(Table()))
              else CacheTable.Write(limits, old(Table()), k, v, now + ttl)
    {
      if ttl == 0 {
        return InvalidArgument;
      }
      status := WriteEntry(k, v, now + ttl);
    }

    method Restore(k: Key, v: seq<byte>, e: int) returns (status: Status)
      requires Valid()
      modifies this, buckets, nodes
      ensures Valid() && old(nodes) <= nodes && fresh(nodes - old(nodes))
      ensures (status, Table()) == CacheTable.Restore(limits, old(Table()), k, v, e)
    {
      if e <= 0 {
        return InvalidArgument;
      }
      status := WriteEntry(k, v, e);
    }

    /** Read an entry; an expired one is removed instead. */
    method Get(k: Key, now: int) returns (status: Status, found: Option<Entry>)
      requires Valid()
      modifies this, buckets, nodes
      ensures Valid() && nodes == old(nodes)
      ensures (status, Table(), found) == CacheTable.Get(old(Table()), k, now)
    {
      var i, prev, cur, j := FindSlot(k);
      if cur == null {
        return NotFound, None;
      }
      if cur.expires <= now {
        RemoveAt(i, prev, cur, j);
        return Expired, None;
      }
      return Ok, Some(Entry(cur.value, cur.expires));
    }

    /** Remove every expired entry and report how many there were. */
    method PurgeExpired(now: int) returns (removed: nat)
      requires Valid()
      modifies this, buckets, nodes
      ensures Valid() && nodes == old(nodes)
      ensures Table() == Active(old(Table()), now)
      ensures removed == |old(Table())| - |Table()|
    {
      removed := 0;
      var i := 0;
      while i < buckets.Length
        invariant i <= |shape.heads| && Valid() && nodes == old(nodes)
        invariant SweptTo(old(Table()), shape, i, now, removed)
      {
        removed := PurgeChain(i, now, removed, old(Table()));
        SweptNext(old(Table()), bucketOf, shape, i, now, removed);
        i := i + 1;
      }
    }

    /** Remove the expired entries of chain `i`. */
    method PurgeChain(i: nat, now: int, start: nat, ghost t: Table) returns (removed: nat)
      requires Valid() && Sweeping(t, shape, i, 0, now, start)
      modifies this, buckets, nodes
      ensures Valid() && nodes == old(nodes)
      ensures i < |shape.chains| && Sweeping(t, shape, i, |shape.chains[i]|, now, removed)
    {
      removed := start;
      var prev: Node?, cur := null, buckets[i];
      ghost var j := 0;
      HeadFacts(bucketOf, shape, i);
      while cur != null
        invariant Valid() && nodes == old(nodes)
        invariant Sweeping(t, shape, i, j, now, removed)
        invariant cur == At(shape.chains[i], j) && prev == Before(shape.chains[i], j)
        decreases |shape.chains[i]| - j
      {
        SlotFacts(bucketOf, shape, i, j);
        var next := cur.next;
        if cur.expires > now {
          prev, j := cur, j + 1;
        } else {
          SweepDrops(t, bucketOf, shape, i, j, now, removed);
          RemoveAt(i, prev, cur, j);
          removed := removed + 1;
        }
        cur := next;
      }
    }

    /** Drop everything. */
    method Clear()
      requires Valid()
      modifies this, buckets, nodes
      ensures Valid() && nodes == old(nodes) && Table() == map[]
    {
      hide Accounted;
      for i := 0 to buckets.Length
        invariant forall m :: 0 <= m < i ==> buckets[m] == null
        invariant unchanged(this) && unchanged(nodes)
      {
        buckets[i] := null;
      }
      ClearedIsAccounted(limits, bucketOf, shape, entryCount, bytesUsed, buckets[..]);
      entryCount, bytesUsed := 0, 0;
      shape := Cleared(shape, buckets[..]);
    }

    /** Visit every entry, bucket by bucket, in chain order. */
    method Entries() returns (listing: seq<(Key, Entry)>)
      requires Valid()
      ensures Lists(listing, Table())
    {
      listing := [];
      var i := 0;
      while i < buckets.Length
        invariant i <= |shape.heads| && ListedTo(bucketOf, shape, listing, i, 0)
      {
        var cur := buckets[i];
        ghost var j := 0;
        HeadFacts(bucketOf, shape, i);
        while cur != null
          invariant j <= |shape.chains[i]| && cur == At(shape.chains[i], j)
          invariant ListedTo(bucketOf, shape, listing, i, j)
          decreases |shape.chains[i]| - j
        {
          SlotFacts(bucketOf, shape, i, j);
          ListNext(bucketOf, shape, listing, i, j);
          listing := listing + [(cur.key, Entry(cur.value, cur.expires))];
          cur, j := cur.next, j + 1;
        }
        ListNextChain(bucketOf, shape, listing, i);
        i := i + 1;
      }
      ListedAll(bucketOf, shape, listing);
    }
  }
}
