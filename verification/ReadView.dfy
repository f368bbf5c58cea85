/** Sweeping cannot be observed by reads, whenever it happens. */
module ReadView {
  import opened Bytes
  import opened CacheTable

  /** A successful write, a successful or unsuccessful delete, a read or a sweep, with its time. */
  datatype Action =
    | Store(key: Key, entry: Entry, at: int)
    | Drop(key: Key, at: int)
    | Read(key: Key, at: int)
    | Sweep(at: int)

  function Do(t: Table, a: Action): Table {
    match a
    case Store(k, e, _) => t[k := e]
    case Drop(k, _) => Delete(t, k).1
    case Read(k, now) => Get(t, k, now).1
    case Sweep(now) => Active(t, now)
  }

  /** What the reads of a run answer: hit or miss, value and expiry. */
  function Answers(t: Table, run: seq<Action>): seq<Option<Entry>>
    decreases |run|
  {
    if |run| == 0 then []
    else
      (if run[0].Read? then [Get(t, run[0].key, run[0].at).2] else []) + Answers(Do(t, run[0]), run[1..])
  }

  function WithoutSweeps(run: seq<Action>): seq<Action> {
    if |run| == 0 then []
    else (if run[0].Sweep? then [] else [run[0]]) + WithoutSweeps(run[1..])
  }

  /** The clock of the run starts at `now` and does not go back. */
  predicate InOrder(run: seq<Action>, now: int) {
    |run| > 0 ==> now <= run[0].at && InOrder(run[1..], run[0].at)
  }

  /** What an action does to the entries a reader can see. */
  function DoToView(v: Table, a: Action): Table {
    match a
    case Store(k, e, now) => if e.expires > now then v[k := e] else v - {k}
    case Drop(k, _) => v - {k}
    case Read(_, _) => v
    case Sweep(_) => v
  }

  function Seen(v: Table, k: Key): Option<Entry> {
    if k in v then Some(v[k]) else None
  }

  lemma ViewAfter(t: Table, a: Action)
    ensures Active(Do(t, a), a.at) == DoToView(Active(t, a.at), a)
    ensures a.Read? ==> Get(t, a.key, a.at).2 == Seen(Active(t, a.at), a.key)
  {
  }

  lemma StepKeepsView(t: Table, u: Table, a: Action, now: int)
    requires Active(t, now) == Active(u, now) && now <= a.at
    ensures Active(Do(t, a), a.at) == Active(Do(u, a), a.at)
    ensures a.Sweep? ==> Active(Do(t, a), a.at) == Active(u, a.at)
    ensures a.Read? ==> Get(t, a.key, a.at).2 == Get(u, a.key, a.at).2
  {
    LaterView(t, u, now, a.at);
    ViewAfter(t, a);
    ViewAfter(u, a);
  }

  lemma LaterView(t: Table, u: Table, now: int, later: int)
    requires Active(t, now) == Active(u, now) && now <= later
    ensures Active(t, later) == Active(u, later)
  {
    assert Active(Active(t, now), later) == Active(t, later);
    assert Active(Active(u, now), later) == Active(u, later);
  }

  lemma {:induction false} ErasingSweepsKeepsAnswers(t: Table, u: Table, run: seq<Action>, now: int)
    requires Active(t, now) == Active(u, now) && InOrder(run, now)
    ensures Answers(t, run) == Answers(u, WithoutSweeps(run))
    decreases |run|
  {
    if |run| > 0 {
      var a := run[0];
      StepKeepsView(t, u, a, now);
      if a.Sweep? {
        ErasingSweepsKeepsAnswers(Do(t, a), u, run[1..], a.at);
        assert WithoutSweeps(run) == WithoutSweeps(run[1..]);
      } else {
        ErasingSweepsKeepsAnswers(Do(t, a), Do(u, a), run[1..], a.at);
        assert WithoutSweeps(run)[1..] == WithoutSweeps(run[1..]);
      }
    }
  }

  /**
   Two runs with the same writes, deletes and reads, which differ only in when sweeps happen,
   answer every read alike.
   */
  lemma SweepsAreInvisibleToReads(t: Table, a: seq<Action>, b: seq<Action>, now: int)
    requires InOrder(a, now) && InOrder(b, now) && WithoutSweeps(a) == WithoutSweeps(b)
    ensures Answers(t, a) == Answers(t, b)
  {
    ErasingSweepsKeepsAnswers(t, t, a, now);
    ErasingSweepsKeepsAnswers(t, t, b, now);
  }

  /** A delete is different: it finds a key exactly when no sweep has dropped the expired entry yet. */
  lemma SweepsAreVisibleToDeletesExactlyWhenExpired(t: Table, k: Key, now: int)
    ensures Delete(t, k).0 == Delete(Active(t, now), k).0 <==> !(k in t && t[k].expires <= now)
  {
  }
}
