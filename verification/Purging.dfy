/** Deleting a list of keys: what is removed and what is counted. */
module Purging {
  import opened CacheTable
  import opened Recovery
  import opened Machine

  /** The different keys among the first `i` listed that the table holds. */
  function Present(t: Table, keys: seq<Key>, i: nat): set<Key>
    requires i <= |keys|
  {
    set j | 0 <= j < i && keys[j] in t :: keys[j]
  }

  lemma PresentGrows(t: Table, keys: seq<Key>, i: nat)
    requires i < |keys|
    ensures Present(t, keys, i + 1) == if keys[i] in t then Present(t, keys, i) + {keys[i]} else Present(t, keys, i)
    ensures keys[i] in t - Present(t, keys, i) <==> keys[i] in t && keys[i] !in Present(t, keys, i)
  {
  }

  /** After `i` keys: those keys are gone and each present one has been counted once. */
  ghost predicate Done(t: Table, now: Table, keys: seq<Key>, i: nat, purged: nat)
    requires i <= |keys|
  {
    now == t - Present(t, keys, i) && purged == |Present(t, keys, i)|
  }

  lemma NextKey(t: Table, now: Table, keys: seq<Key>, i: nat, purged: nat)
    requires i < |keys| && Done(t, now, keys, i, purged)
    ensures if keys[i] in now then Done(t, now - {keys[i]}, keys, i + 1, purged + 1)
            else Done(t, now, keys, i + 1, purged)
  {
    PresentGrows(t, keys, i);
    var p := Present(t, keys, i);
    if keys[i] in now {
      assert now - {keys[i]} == t - (p + {keys[i]});
    } else if keys[i] in t {
      assert p + {keys[i]} == p;
    }
  }

  lemma {:induction false} PurgeFromIsDone(t: Table, p: Purge, keys: seq<Key>, i: nat, env: Env)
    requires i <= |keys| && Done(t, p.table, keys, i, p.purged)
    ensures var r := PurgeFrom(p, keys, i, env); Done(t, r.table, keys, |keys|, r.purged)
    decreases |keys| - i
  {
    if i < |keys| {
      NextKey(t, p.table, keys, i, p.purged);
      if keys[i] !in p.table {
        PurgeFromIsDone(t, p, keys, i + 1, env);
      } else {
        var d := if p.failed then p.disk else Append(p.disk, Remove(keys[i]), env.append(i));
        var q := Purge(p.table - {keys[i]}, d, p.failed || env.append(i) != Appended, p.purged + 1);
        PurgeFromIsDone(t, q, keys, i + 1, env);
      }
    }
  }

  /**
   A purge of listed keys removes exactly the listed keys, repeated or not, and reports how many
   different ones were there, whatever becomes of the journal.
   */
  lemma PurgeCountsDifferentKeys(cfg: Config, s: State, keys: seq<Key>, now: int, env: Env)
    ensures var p := PurgeFrom(Purge(s.live.table, s.disk, false, 0), keys, 0, env);
            p.purged == |set k | k in keys && k in s.live.table| <= |keys|
    ensures var t := Step(cfg, s, DeleteKeys(keys), now, env).0.live.table;
            forall k :: (k in t <==> k in s.live.table && k !in keys) && (k in t ==> t[k] == s.live.table[k])
  {
    var t := s.live.table;
    assert Present(t, keys, 0) == {} && t - {} == t;
    PurgeFromIsDone(t, Purge(t, s.disk, false, 0), keys, 0, env);
    assert Present(t, keys, |keys|) == set k | k in keys && k in t;
    PresentIsBounded(t, keys, |keys|);
  }

  lemma {:induction false} PresentIsBounded(t: Table, keys: seq<Key>, i: nat)
    requires i <= |keys|
    ensures |Present(t, keys, i)| <= i
  {
    if i > 0 {
      PresentIsBounded(t, keys, i - 1);
      PresentGrows(t, keys, i - 1);
    }
  }
}
