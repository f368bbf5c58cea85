/**
 Which record a token authenticates as and with which role, and that it grants no higher role in any later
 state, through requests, failing writes, crashes and restarts.
 */
module Authority {
  import opened Bytes
  import opened CacheTable
  import opened Recovery
  import opened Machine
  import opened Durability
  import Clients
  import Dispatch
  import Revocation

  // ---------------------------------------------------------------- a token keeps its role

  /** No active record with this digest has a role above `r`. */
  predicate Grants(c: Clients.Client, hash: seq<byte>, r: nat) {
    Clients.Matches(c, hash) ==> c.role <= r
  }

  predicate AllGrant(cs: seq<Clients.Client>, hash: seq<byte>, r: nat) {
    forall i :: 0 <= i < |cs| ==> Grants(cs[i], hash, r)
  }

  predicate LogGrants(log: seq<Record>, hash: seq<byte>, r: nat) {
    forall i :: 0 <= i < |log| && log[i].Upsert? ==> Grants(log[i].client, hash, r)
  }

  /** The digest grants at most `r`, in memory and in whatever any load of the files produces. */
  predicate Bounded(s: State, hash: seq<byte>, r: nat) {
    AllGrant(s.live.clients, hash, r) && LogGrants(Log(s.disk), hash, r)
  }

  /** What can raise it: the same digest issued again to a higher role, or imported with one. */
  predicate Raises(s: State, e: Event, hash: seq<byte>, r: nat) {
    || (e.RegisterClient? && e.hash == hash && e.role > r)
    || (e.RotateToken? && e.hash == hash
        && exists i :: 0 <= i < |s.live.clients| && s.live.clients[i].id == e.id && s.live.clients[i].role > r)
    || (e.ImportImage? && e.image.Some? && !LogGrants(ImageRecords(e.image.value), hash, r))
  }

  lemma {:induction false} EffectsGrant(x: Live, log: seq<Record>, t: int, hash: seq<byte>, r: nat)
    requires AllGrant(x.clients, hash, r) && LogGrants(log, hash, r)
    ensures AllGrant(Effects(x, log, t).clients, hash, r)
  {
    if |log| > 0 {
      var front, last := log[..|log| - 1], log[|log| - 1];
      EffectsGrant(x, front, t, hash, r);
      assert last.Upsert? ==> Grants(last.client, hash, r);
    }
  }

  lemma ImageGrants(entries: seq<(Key, Entry)>, cs: seq<Clients.Client>, hash: seq<byte>, r: nat)
    requires AllGrant(cs, hash, r)
    ensures LogGrants(ImageRecords(Image(entries, cs)), hash, r)
  {
    var log := ImageRecords(Image(entries, cs));
    forall i | 0 <= i < |log| && log[i].Upsert?
      ensures Grants(log[i].client, hash, r)
    {
      assert log[i].client == cs[i - |entries|];
    }
  }

  lemma ConcatGrants(a: seq<Record>, b: seq<Record>, hash: seq<byte>, r: nat)
    ensures LogGrants(a + b, hash, r) <==> LogGrants(a, hash, r) && LogGrants(b, hash, r)
  {
    var all := a + b;
    if LogGrants(all, hash, r) {
      assert forall i :: 0 <= i < |a| ==> all[i] == a[i];
      assert forall i :: 0 <= i < |b| ==> all[|a| + i] == b[i];
    }
  }

  lemma CheckpointGrants(x: Live, d: Disk, env: Env, hash: seq<byte>, r: nat)
    requires AllGrant(x.clients, hash, r) && LogGrants(Log(d), hash, r)
    ensures LogGrants(Log(Checkpoint(x, d, env).0), hash, r)
  {
    var image := ImageRecords(Image(env.listing, x.clients));
    var base := if d.checkpoint.Some? then ImageRecords(d.checkpoint.value) else [];
    ImageGrants(env.listing, x.clients, hash, r);
    ConcatGrants(base, d.journal, hash, r);
    ConcatGrants(image, d.journal, hash, r);
    assert image + [] == image;
  }

  lemma AppendGrants(d: Disk, rec: Record, outcome: AppendOutcome, hash: seq<byte>, r: nat)
    requires LogGrants(Log(d), hash, r) && LogGrants([rec], hash, r)
    ensures LogGrants(Log(Append(d, rec, outcome)), hash, r)
  {
    ConcatGrants(Log(d), [rec], hash, r);
    if outcome == Appended || outcome == Unconfirmed {
      assert Log(Append(d, rec, outcome)) == Log(d) + [rec];
    }
  }

  lemma SaveGrants(x: Live, d: Disk, rec: Record, env: Env, hash: seq<byte>, r: nat)
    requires AllGrant(x.clients, hash, r) && LogGrants(Log(d), hash, r) && LogGrants([rec], hash, r)
    ensures LogGrants(Log(Save(x, d, rec, env).0), hash, r)
  {
    AppendGrants(d, rec, env.append(0), hash, r);
    CheckpointGrants(x, Append(d, rec, env.append(0)), env, hash, r);
  }

  lemma {:induction false} PurgeGrants(p: Purge, keys: seq<Key>, i: nat, env: Env, hash: seq<byte>, r: nat)
    requires i <= |keys| && LogGrants(Log(p.disk), hash, r)
    ensures LogGrants(Log(PurgeFrom(p, keys, i, env).disk), hash, r)
    decreases |keys| - i
  {
    if i < |keys| {
      if keys[i] !in p.table {
        PurgeGrants(p, keys, i + 1, env, hash, r);
      } else {
        AppendGrants(p.disk, Remove(keys[i]), env.append(i), hash, r);
        var d := if p.failed then p.disk else Append(p.disk, Remove(keys[i]), env.append(i));
        var q := Purge(p.table - {keys[i]}, d, p.failed || env.append(i) != Appended, p.purged + 1);
        PurgeGrants(q, keys, i + 1, env, hash, r);
      }
    }
  }

  lemma ClientStepKeepsBounded(cfg: Config, s: State, e: Event, now: int, env: Env, hash: seq<byte>, r: nat)
    requires Bounded(s, hash, r) && !Raises(s, e, hash, r)
    requires e.RegisterClient? || e.RotateToken? || e.InvalidateToken?
    ensures Bounded(Step(cfg, s, e, now, env).0, hash, r)
  {
    hide Save, LogGrants;
    var cs := s.live.clients;
    var w := match e
             case RegisterClient(id, role, h) => Clients.Register(cs, id, role, h)
             case RotateToken(id, h) => Clients.Rotate(cs, id, h)
             case InvalidateToken(id) => Clients.Invalidate(cs, id);
    assert Step(cfg, s, e, now, env) == ChangeClient(s, w, e.id, now, env);
    assert AllGrant(w.1, hash, r);
    var c := Clients.Lookup(w.1, e.id);
    if w.0 == Clients.Ok && c.Some? {
      assert Grants(c.value, hash, r);
      assert LogGrants([Upsert(c.value)], hash, r) by {
        OneGrants(c.value, hash, r);
      }
      SaveGrants(s.live.(clients := w.1), s.disk, Upsert(c.value), env, hash, r);
    }
  }

  lemma OneGrants(c: Clients.Client, hash: seq<byte>, r: nat)
    ensures LogGrants([Upsert(c)], hash, r) <==> Grants(c, hash, r)
  {
    assert [Upsert(c)][0] == Upsert(c);
  }

  lemma StartKeepsBounded(cfg: Config, s: State, now: int, env: Env, hash: seq<byte>, r: nat)
    requires Bounded(s, hash, r)
    ensures Bounded(Step(cfg, s, Restart, now, env).0, hash, r)
  {
    hide Replay, Effects, Salvage, ReadableLog, Checkpoint;
    var log := ReadableLog(s.disk);
    ReadableLogIsPrefix(s.disk);
    if Load(cfg.limits, s.disk, now).Some? {
      ReplayComputesEffects(cfg.limits, EMPTY, Log(s.disk), now);
      EffectsGrant(EMPTY, Log(s.disk), now, hash, r);
    } else {
      Revocation.SalvageIsTheAcceptedPrefix(cfg.limits, EMPTY, log, now);
      var part := log[..Revocation.Accepted(cfg.limits, EMPTY, log, now)];
      assert forall i :: 0 <= i < |part| ==> part[i] == Log(s.disk)[i];
      EffectsGrant(EMPTY, part, now, hash, r);
      CheckpointGrants(Effects(EMPTY, part, now), s.disk, env, hash, r);
    }
  }

  lemma ImportKeepsBounded(cfg: Config, s: State, image: Option<Image>, now: int, env: Env, hash: seq<byte>, r: nat)
    requires Bounded(s, hash, r) && !Raises(s, ImportImage(image), hash, r)
    ensures Bounded(Step(cfg, s, ImportImage(image), now, env).0, hash, r)
  {
    hide Replay, Effects, Checkpoint, LogGrants;
    if image.Some? && Replay(cfg.limits, EMPTY, ImageRecords(image.value), now).Some? {
      ReplayComputesEffects(cfg.limits, EMPTY, ImageRecords(image.value), now);
      EffectsGrant(EMPTY, ImageRecords(image.value), now, hash, r);
      CheckpointGrants(Effects(EMPTY, ImageRecords(image.value), now), s.disk, env, hash, r);
    }
  }

  lemma StepKeepsBounded(cfg: Config, s: State, e: Event, now: int, env: Env, hash: seq<byte>, r: nat)
    requires Bounded(s, hash, r) && !Raises(s, e, hash, r)
    ensures Bounded(Step(cfg, s, e, now, env).0, hash, r)
  {
    hide Replay, PurgeFrom, ChangeClient, Save, Checkpoint, Load, Salvage, LogGrants, AllGrant, Write;
    var x, d := s.live, s.disk;
    NonClientsGrant(hash, r);
    match e {
      case Get(_) =>
      case Sweep =>
      case PutEntry(k, v, ttl) =>
        SaveGrants(x.(table := Write(cfg.limits, x.table, k, v, now + ttl).1), d, Set(k, v, now + ttl), env, hash, r);
      case DeleteKey(k) => SaveGrants(x.(table := x.table - {k}), d, Remove(k), env, hash, r);
      case DeleteKeys(keys) =>
        var p := Purge(x.table, d, false, 0);
        PurgeGrants(p, keys, 0, env, hash, r);
        var after := PurgeFrom(p, keys, 0, env);
        CheckpointGrants(x.(table := after.table), after.disk, env, hash, r);
      case DeleteAll => SaveGrants(x.(table := map[]), d, PurgeAll, env, hash, r);
      case RegisterClient(_, _, _) => ClientStepKeepsBounded(cfg, s, e, now, env, hash, r);
      case RotateToken(_, _) => ClientStepKeepsBounded(cfg, s, e, now, env, hash, r);
      case InvalidateToken(_) => ClientStepKeepsBounded(cfg, s, e, now, env, hash, r);
      case Export(_, _) => CheckpointGrants(x, d, env, hash, r);
      case ImportImage(image) => ImportKeepsBounded(cfg, s, image, now, env, hash, r);
      case Shutdown => CheckpointGrants(x, d, env, hash, r);
      case Restart => StartKeepsBounded(cfg, s, now, env, hash, r);
    }
  }

  lemma NonClientsGrant(hash: seq<byte>, r: nat)
    ensures forall rec: Record {:trigger LogGrants([rec], hash, r)} :: !rec.Upsert? ==> LogGrants([rec], hash, r)
  {
  }

  ghost predicate NeverRaises(cfg: Config, s: State, moves: seq<Move>, hash: seq<byte>, r: nat) {
    |moves| > 0 ==>
      var front, m := moves[..|moves| - 1], moves[|moves| - 1];
      NeverRaises(cfg, s, front, hash, r) && !Raises(Run(cfg, s, front), m.event, hash, r)
  }

  lemma {:induction false} RunKeepsBounded(cfg: Config, s: State, moves: seq<Move>, hash: seq<byte>, r: nat)
    requires Bounded(s, hash, r) && NeverRaises(cfg, s, moves, hash, r)
    ensures Bounded(Run(cfg, s, moves), hash, r)
  {
    hide Step, Bounded, Raises;
    if |moves| > 0 {
      var front, m := moves[..|moves| - 1], moves[|moves| - 1];
      RunKeepsBounded(cfg, s, front, hash, r);
      StepKeepsBounded(cfg, Run(cfg, s, front), m.event, m.now, m.env, hash, r);
    }
  }

  /**
   A registered token authenticates at once as its client with its role. In every later state, through
   requests, failing writes, crashes and restarts, it grants no higher role until it is issued again to one.
   */
  lemma TokenKeepsItsRole(cfg: Config, s: State, id: seq<byte>, role: nat, hash: seq<byte>, now: int, env: Env,
        moves: seq<Move>, bootstrap: seq<byte>)
    requires Step(cfg, s, RegisterClient(id, role, hash), now, env).1 in {200, 500} && hash != bootstrap
    requires LogGrants(Log(s.disk), hash, role)
    requires forall i :: 0 <= i < |s.live.clients| ==> !Clients.Matches(s.live.clients[i], hash)
    requires NeverRaises(cfg, Step(cfg, s, RegisterClient(id, role, hash), now, env).0, moves, hash, role)
    ensures var s' := Step(cfg, s, RegisterClient(id, role, hash), now, env).0;
            var p := Clients.Authenticate(Run(cfg, s', moves).live.clients, bootstrap, hash);
            && Clients.Authenticate(s'.live.clients, bootstrap, hash) == Some(Clients.Principal(role, id))
            && (p.Some? ==> p.value.role <= role)
  {
    hide Save, NeverRaises, Run;
    var cs := s.live.clients;
    var s' := Step(cfg, s, RegisterClient(id, role, hash), now, env).0;
    assert s'.live.clients == cs + [Clients.Client(id, role, true, hash)];
    Clients.OwnTokenAuthenticates(s'.live.clients, bootstrap, |cs|);
    ClientStepKeepsBounded(cfg, s, RegisterClient(id, role, hash), now, env, hash, role);
    RunKeepsBounded(cfg, s', moves, hash, role);
    BoundedTokenGrantsNoMore(Run(cfg, s', moves), bootstrap, hash, role);
  }

  lemma BoundedTokenGrantsNoMore(s: State, bootstrap: seq<byte>, hash: seq<byte>, r: nat)
    requires Bounded(s, hash, r) && hash != bootstrap
    ensures var p := Clients.Authenticate(s.live.clients, bootstrap, hash); p.Some? ==> p.value.role <= r
  {
    Clients.AuthenticateExactly(s.live.clients, bootstrap, hash);
    assert forall i :: 0 <= i < |s.live.clients| ==> Grants(s.live.clients[i], hash, r);
  }

  /** The same for the requests of a serving run: the token never holds a role above the one it was given. */
  lemma ServedTokenKeepsItsRole(g: Dispatch.Settings, sv: Dispatch.Server, rs: seq<Dispatch.Request>, hash: seq<byte>,
        role: nat, more: nat)
    requires Bounded(sv.state, hash, role) && hash != g.bootstrapHash && more > role
    requires NeverRaises(g.machine, sv.state, Dispatch.AllMoves(g, sv, rs), hash, role)
    ensures !Dispatch.Holds(g, Dispatch.ServeAll(g, sv, rs).state.live.clients, Some(hash), more)
  {
    hide Run, Dispatch.ServeAll, Dispatch.AllMoves, NeverRaises;
    Dispatch.ServingIsARun(g, sv, rs);
    RunKeepsBounded(g.machine, sv.state, Dispatch.AllMoves(g, sv, rs), hash, role);
    BoundedTokenGrantsNoMore(Dispatch.ServeAll(g, sv, rs).state, g.bootstrapHash, hash, role);
  }
}
