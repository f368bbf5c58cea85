/**
 What the answers mean: for every kind of step, exactly when it answers what, stated on the state, the
 request and the outcomes of the file-system calls, and what a client may conclude from a 200.
 */
module Answers {
  import opened Bytes
  import opened CacheTable
  import opened Recovery
  import opened Machine
  import opened Durability
  import Clients
  import Pacing

  // ---------------------------------------------------------------- exactly when a step answers what

  /** The change has reached the files: its record was appended, or the checkpoint tried instead is complete. */
  predicate Reached(env: Env) {
    env.append(0) == Appended || env.checkpoint == Complete
  }

  /** A read answers 200 exactly while the key's entry lives. */
  lemma GetAnswers(cfg: Config, s: State, k: Key, now: int, env: Env)
    ensures Step(cfg, s, Get(k), now, env).1 ==
            if k in s.live.table && now < s.live.table[k].expires then 200 else 404
  {
  }

  /** The charge of one entry: 48 bytes for the node, the key with its terminating NUL, and the value. */
  lemma EntryCharge(k: Key, e: Entry)
    ensures TotalCost(map[k := e]) == 48 + (|k| + 1) + |e.value|
  {
    var t: Table := map[k := e];
    TotalCostSplit(t, k);
    assert t - {k} == map[];
  }

  /**
   A write answers 400 outside the bounds on times to live; 413 when the key is empty or too long, the value
   too long, or the table with the new entry over the ceiling; otherwise 200 if the change reached the files
   and 500 if it did not.
   */
  lemma PutAnswers(cfg: Config, s: State, k: Key, v: seq<byte>, ttl: nat, now: int, env: Env)
    ensures var l, t := cfg.limits, s.live.table;
            var status := Step(cfg, s, PutEntry(k, v, ttl), now, env).1;
            if ttl < cfg.minTtl || cfg.maxTtl < ttl then status == 400
            else if |k| == 0 || |k| > l.maxKey || |v| > l.maxValue || TotalCost(t[k := Entry(v, now + ttl)]) > l.memory
            then status == 413
            else status == if Reached(env) then 200 else 500
  {
    CostIgnoresExpiry(s.live.table, k, v, 0, now + ttl);
  }

  /** A deletion answers 404 exactly when the store does not hold the key; an expired entry is still held. */
  lemma DeleteAnswers(cfg: Config, s: State, k: Key, now: int, env: Env)
    ensures Step(cfg, s, DeleteKey(k), now, env).1 ==
            if k !in s.live.table then 404 else if Reached(env) then 200 else 500
    ensures Step(cfg, s, DeleteAll, now, env).1 == if Reached(env) then 200 else 500
  {
  }

  /** The listed key is held and not listed before: the one time its deletion is appended. */
  predicate Removes(t: Table, keys: seq<Key>, i: nat) {
    i < |keys| && keys[i] in t && keys[i] !in keys[..i]
  }

  lemma {:induction false} PurgeFailsExactlyWhen(t: Table, p: Purge, keys: seq<Key>, i: nat, env: Env)
    requires i <= |keys| && forall k :: k in p.table <==> k in t && k !in keys[..i]
    ensures PurgeFrom(p, keys, i, env).failed <==>
              p.failed || exists j :: i <= j < |keys| && Removes(t, keys, j) && env.append(j) != Appended
    decreases |keys| - i
  {
    if i < |keys| {
      assert keys[..i + 1] == keys[..i] + [keys[i]];
      assert keys[i] in p.table <==> Removes(t, keys, i);
      if keys[i] !in p.table {
        PurgeFailsExactlyWhen(t, p, keys, i + 1, env);
      } else {
        var d := if p.failed then p.disk else Append(p.disk, Remove(keys[i]), env.append(i));
        var q := Purge(p.table - {keys[i]}, d, p.failed || env.append(i) != Appended, p.purged + 1);
        PurgeFailsExactlyWhen(t, q, keys, i + 1, env);
      }
    }
  }

  /** A purge of listed keys answers 200 exactly when every deletion was appended or the checkpoint is complete. */
  lemma PurgeAnswers(cfg: Config, s: State, keys: seq<Key>, now: int, env: Env)
    ensures Step(cfg, s, DeleteKeys(keys), now, env).1 ==
            if (forall j: nat :: Removes(s.live.table, keys, j) ==> env.append(j) == Appended)
               || env.checkpoint == Complete
            then 200 else 500
  {
    PurgeFailsExactlyWhen(s.live.table, Purge(s.live.table, s.disk, false, 0), keys, 0, env);
  }

  /** Letters, digits, '-', '_' and '.', from 1 to 63 of them. */
  predicate IsClientName(id: seq<byte>) {
    1 <= |id| <= 63 && forall i :: 0 <= i < |id| ==> IsNameChar(id[i] as char)
  }

  predicate IsNameChar(c: char) {
    'a' <= c <= 'z' || 'A' <= c <= 'Z' || '0' <= c <= '9' || c in "-_."
  }

  predicate Known(cs: seq<Clients.Client>, id: seq<byte>) {
    exists i :: 0 <= i < |cs| && cs[i].id == id
  }

  lemma NamesAreIds(id: seq<byte>)
    ensures Clients.ValidId(id) <==> IsClientName(id)
  {
    assert forall c: byte :: Clients.IsIdByte(c) <==> IsNameChar(c as char);
  }

  /**
   A registration answers 409 for a known name, 400 for an unusable name, no role or a registry that is full;
   a rotation and an invalidation answer 400 for an unusable name and 404 for an unknown one; otherwise 200 if
   the change reached the files and 500 if it did not.
   */
  lemma ClientAnswers(cfg: Config, s: State, id: seq<byte>, role: nat, hash: seq<byte>, now: int, env: Env)
    ensures var cs, saved := s.live.clients, if Reached(env) then 200 else 500;
            && Step(cfg, s, RegisterClient(id, role, hash), now, env).1 ==
               (if role == 0 || !IsClientName(id) then 400 else if Known(cs, id) then 409
                else if |cs| >= 1024 then 400 else saved)
            && Step(cfg, s, RotateToken(id, hash), now, env).1 ==
               (if !IsClientName(id) then 400 else if !Known(cs, id) then 404 else saved)
            && Step(cfg, s, InvalidateToken(id), now, env).1 ==
               (if !IsClientName(id) then 400 else if !Known(cs, id) then 404 else saved)
  {
    var cs := s.live.clients;
    NamesAreIds(id);
    Clients.ChangeIsOnePut(cs, id, role, hash);
    Clients.PutLookup(cs, Clients.Client(id, role, true, hash), id);
    if Clients.IndexOf(cs, id) < |cs| {
      var c := Clients.Lookup(cs, id).value;
      Clients.PutLookup(cs, c.(active := true, hash := hash), id);
      Clients.PutLookup(cs, c.(active := false, hash := Zeros(32)), id);
    }
  }

  /**
   An export answers 200 exactly when there was room for it, the checkpoint is complete and the file was
   written; an import exactly when the file decodes within the limits and the checkpoint is complete.
   */
  lemma StateAnswers(cfg: Config, s: State, hasRoom: bool, written: bool, image: Option<Image>, now: int, env: Env)
    ensures Step(cfg, s, Export(hasRoom, written), now, env).1 ==
            if hasRoom && written && env.checkpoint == Complete then 200 else 500
    ensures Step(cfg, s, ImportImage(image), now, env).1 ==
            if image.Some? && Replay(cfg.limits, EMPTY, ImageRecords(image.value), now).Some?
               && env.checkpoint == Complete
            then 200 else 400
  {
  }

  // ---------------------------------------------------------------- what a 200 promises

  /** A step that answered 200 has saved what it did, unless it shortened a life. */
  lemma AnsweredIsSaved(cfg: Config, q: Quality, s: State, e: Event, now: int, env: Env)
    requires Step(cfg, s, e, now, env).1 == 200 && q != Lost
    requires e.PutEntry? ==> !Shortens(s.live.table, e.key, now + e.ttl)
    ensures NextQuality(cfg, q, s, e, now, env) != Lost
    ensures var y := Step(cfg, s, e, now, env).0.live;
            q == Exact && (TriesCheckpoint(cfg, s, e, now, env) ==> WritesLoadable(y, env)) ==>
              NextQuality(cfg, q, s, e, now, env) == Exact
  {
    hide Replay;
    match e {
      case RegisterClient(id, role, hash) => ClientAnswers(cfg, s, id, role, hash, now, env);
      case RotateToken(id, hash) => ClientAnswers(cfg, s, id, 0, hash, now, env);
      case InvalidateToken(id) => ClientAnswers(cfg, s, id, 0, [], now, env);
      case _ =>
    }
  }

  /**
   What a client may conclude from a 200: whatever the files held of the state before, any later load that
   succeeds finds the state after the step, and with exact files and a loadable checkpoint it does succeed.
   */
  lemma AnsweredIsLoaded(cfg: Config, q: Quality, s: State, e: Event, now: int, env: Env, t: int)
    requires Inv(cfg, s) && Allowed(cfg, s, e, now, env) && Holds(cfg.limits, q, s.disk, s.live, s.clock)
    requires Step(cfg, s, e, now, env).1 == 200 && q != Lost && t >= now
    requires e.PutEntry? ==> !Shortens(s.live.table, e.key, now + e.ttl)
    ensures var s' := Step(cfg, s, e, now, env).0;
            && Load(cfg.limits, s'.disk, t) in {None, Some(View(s'.live, t))}
            && (q == Exact && (TriesCheckpoint(cfg, s, e, now, env) ==> WritesLoadable(s'.live, env)) ==>
                  Load(cfg.limits, s'.disk, t) == Some(View(s'.live, t)))
  {
    hide Step, NextQuality, TriesCheckpoint, Load;
    var s' := Step(cfg, s, e, now, env).0;
    AnsweredIsSaved(cfg, q, s, e, now, env);
    StepKeepsQuality(cfg, q, s, e, now, env);
    Pacing.ClockIsNow(cfg, s, e, now, env);
    if NextQuality(cfg, q, s, e, now, env) == Safe {
      DescribedLoadsAreRight(cfg.limits, s'.disk, s'.live, now, t);
    }
  }
}
