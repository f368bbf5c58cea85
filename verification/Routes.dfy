/**
 Requests from arrival to answer, in literal terms: which refusal a request meets, what it did when it met
 none, and how long expired entries stay in memory. Roles are numbered as the source numbers them: 1 client,
 2 operator, 3 administrator.
 */
module Routes {
  import opened Bytes
  import opened CacheTable
  import opened Recovery
  import opened Machine
  import Durability
  import opened Dispatch
  import Answers
  import Clients
  import Limiter
  import Pacing
  import ReadBack

  // ---------------------------------------------------------------- refusals

  /** The role a request needs, for those that get as far as being asked for a token. */
  function Needed(r: Request): Option<nat> {
    match r.route
    case Cache(key) => if key.Some? then Some(1) else None
    case Report => if r.verb == GET then Some(2) else None
    case Health => None
    case Root => None
    case Unknown => None
    case _ => if r.verb == POST then Some(3) else None
  }

  /** What a request that is not asked for a token is answered. */
  function OpenAnswer(r: Request): nat {
    if r.route.Unknown? then 404
    else if r.route.Cache? then 400
    else if (r.route.Health? || r.route.Root?) && r.verb == GET then 200
    else 405
  }

  /**
   Every request: without a needed role the answer is fixed and nothing but a due sweep happens. With one,
   401 without a valid token, 403 below the role, 429 over the budget, 405 for another method on a cache key,
   and otherwise none of these.
   */
  lemma RefusalsExactly(g: Settings, sv: Server, r: Request)
    ensures var status := Serve(g, sv, r).1;
            match Needed(r)
            case None => status == OpenAnswer(r)
            case Some(role) =>
              if r.token.None? then status == 401
              else
                match Clients.Authenticate(sv.state.live.clients, g.bootstrapHash, r.token.value)
                case None => status == 401
                case Some(p) =>
                  if p.role < role then status == 403
                  else if !Limiter.Allow(g.budget, sv.windows, p.id, r.now).1 then status == 429
                  else if r.route.Cache? && r.verb !in {GET, PUT, DELETE} then status == 405
                  else status in {200, 400, 404, 409, 413, 500}
  {
    hide Limiter.Allow, Clients.Authenticate;
    var swept := MaybeSweep(g, sv, r);
    assert swept.state.live.clients == sv.state.live.clients && swept.windows == sv.windows;
    var e := EventOf(g.machine.limits, r);
    if e.Some? {
      HandledStatuses(g.machine, swept.state, e.value, r.now, r.env);
    }
  }

  lemma HandledStatuses(cfg: Config, s: State, e: Event, now: int, env: Env)
    requires !e.Sweep? && !e.Shutdown? && !e.Restart?
    ensures Step(cfg, s, e, now, env).1 in {200, 400, 404, 409, 413, 500}
  {
  }

  /** A 403 is given only to a valid token below the role, and a token that has the role never gets one. */
  lemma ForbiddenExactlyBelowTheRole(g: Settings, sv: Server, r: Request)
    ensures Serve(g, sv, r).1 == 403 <==>
              && Needed(r).Some? && Holds(g, sv.state.live.clients, r.token, 0)
              && !Holds(g, sv.state.live.clients, r.token, Needed(r).value)
  {
    hide Serve, Clients.Authenticate, Limiter.Allow;
    RefusalsExactly(g, sv, r);
  }

  /**
   Whatever is changed outside the cache keys is changed by an administrator, reports are answered to
   operators, and cache keys are served to clients.
   */
  lemma RolesAreLiteral(g: Settings, sv: Server, r: Request, t: int)
    requires t >= r.now
    ensures !SameAt(Serve(g, sv, r).0.state, sv.state, t) && !r.route.Cache? ==>
              Holds(g, sv.state.live.clients, r.token, 3)
    ensures !SameAt(Serve(g, sv, r).0.state, sv.state, t) && r.route.Cache? ==>
              Holds(g, sv.state.live.clients, r.token, 1)
    ensures r.route.Report? && Serve(g, sv, r).1 == 200 ==> Holds(g, sv.state.live.clients, r.token, 2)
    ensures r.route.Cache? && r.route.key.Some? && Serve(g, sv, r).1 !in {401, 403, 429} ==>
              Holds(g, sv.state.live.clients, r.token, 1)
  {
    RefusalsExactly(g, sv, r);
    hide Serve, Clients.Authenticate, Limiter.Allow, SameAt;
    if !SameAt(Serve(g, sv, r).0.state, sv.state, t) {
      ChangeIsAuthorized(g, sv, r, t);
      if !r.route.Cache? {
        UnaskedChangesNothing(g, sv, r, t);
      }
    }
  }

  lemma UnaskedChangesNothing(g: Settings, sv: Server, r: Request, t: int)
    requires t >= r.now
    ensures Needed(r).None? || r.route.Report? ==> SameAt(Serve(g, sv, r).0.state, sv.state, t)
  {
    hide Limiter.Allow, Clients.Authenticate;
    SweepIsInvisible(g, sv, r, t);
  }

  // ---------------------------------------------------------------- what a request did

  /** Past token, role and budget, with a method its route knows. */
  predicate Admitted(g: Settings, sv: Server, r: Request) {
    && Needed(r).Some? && Holds(g, sv.state.live.clients, r.token, Needed(r).value) && Dispatch.Admits(g, sv, r)
    && (r.route.Cache? ==> r.verb in {GET, PUT, DELETE})
  }

  ghost function Swept(g: Settings, sv: Server, r: Request): State {
    MaybeSweep(g, sv, r).state
  }

  lemma AdmittedIsHandled(g: Settings, sv: Server, r: Request)
    requires Admitted(g, sv, r)
    ensures var swept := MaybeSweep(g, sv, r);
            && Serve(g, sv, r).1 == Handle(g, swept, r).1
            && Serve(g, sv, r).0.state == Handle(g, swept, r).0.state
            && swept.state.live.clients == sv.state.live.clients
  {
    hide Limiter.Allow, Clients.Authenticate, Handle;
    var swept := MaybeSweep(g, sv, r);
    RefusedIsUntouched(g, swept, r);
    assert Handle(g, Authorize(g, swept, r).0, r).1 == Handle(g, swept, r).1
           && Handle(g, Authorize(g, swept, r).0, r).0.state == Handle(g, swept, r).0.state by {
      HandleIgnoresWindows(g, Authorize(g, swept, r).0, swept, r);
    }
  }

  lemma HandleIgnoresWindows(g: Settings, a: Server, b: Server, r: Request)
    requires a.state == b.state
    ensures Handle(g, a, r).1 == Handle(g, b, r).1 && Handle(g, a, r).0.state == Handle(g, b, r).0.state
  {
    hide Step;
  }

  /** A GET of a cache key answers 200 while its entry lives and 404 otherwise, and changes nothing visible. */
  lemma ServedGet(g: Settings, sv: Server, r: Request, k: Key)
    requires Admitted(g, sv, r) && r.route == Cache(Some(k)) && r.verb == GET
    ensures Serve(g, sv, r).1 == if k in Active(sv.state.live.table, r.now) then 200 else 404
  {
    hide Serve;
    AdmittedIsHandled(g, sv, r);
    Answers.GetAnswers(g.machine, Swept(g, sv, r), k, r.now, r.env);
  }

  /** A PUT answered 200 or 500 has put the value under the key, to expire after its time to live. */
  lemma ServedPut(g: Settings, sv: Server, r: Request, k: Key, t: int)
    requires Admitted(g, sv, r) && r.route == Cache(Some(k)) && r.verb == PUT && t >= r.now
    ensures var put := r.content.put;
            var after := Serve(g, sv, r).0.state.live;
            if Serve(g, sv, r).1 in {200, 500} then
              && put.Some? && after.clients == sv.state.live.clients
              && Active(after.table, t) ==
                 Active(sv.state.live.table[k := Entry(put.value.0, r.now + put.value.1)], t)
            else Durability.View(after, t) == Durability.View(sv.state.live, t)
    ensures r.content.put.None? ==> Serve(g, sv, r).1 == 400
  {
    hide Serve;
    AdmittedIsHandled(g, sv, r);
    SweptReadsAlike(g, sv, r);
    var m := sv.state.live.table;
    if r.content.put.Some? {
      var e := PutEntry(k, r.content.put.value.0, r.content.put.value.1);
      FollowedStep(g, sv, r, e, t);
    }
  }

  /** A DELETE answered 200 or 500 has removed the key and nothing else. */
  lemma ServedDelete(g: Settings, sv: Server, r: Request, k: Key, t: int)
    requires Admitted(g, sv, r) && r.route == Cache(Some(k)) && r.verb == DELETE && t >= r.now
    ensures var after := Serve(g, sv, r).0.state.live;
            && after.clients == sv.state.live.clients
            && Active(after.table, t) == Active(sv.state.live.table - {k}, t)
            && (Serve(g, sv, r).1 == 404 <==> k !in Swept(g, sv, r).live.table)
  {
    hide Serve;
    AdmittedIsHandled(g, sv, r);
    FollowedStep(g, sv, r, DeleteKey(k), t);
    Answers.DeleteAnswers(g.machine, Swept(g, sv, r), k, r.now, r.env);
  }

  /** A purge of everything leaves no entry; a purge of listed keys exactly the others. Both keep the clients. */
  lemma ServedPurge(g: Settings, sv: Server, r: Request, t: int)
    requires Admitted(g, sv, r) && (r.route.PurgeAllKeys? || r.route.PurgeListed?) && t >= r.now
    ensures var after := Serve(g, sv, r).0.state.live;
            && after.clients == sv.state.live.clients
            && (r.route.PurgeAllKeys? ==> after.table == map[] && Serve(g, sv, r).1 in {200, 500})
            && (r.route.PurgeListed? ==>
                  var keys := r.content.keys;
                  var l := g.machine.limits;
                  if keys.None? || |keys.value| == 0
                     || exists i :: 0 <= i < |keys.value| && (|keys.value[i]| == 0 || |keys.value[i]| > l.maxKey)
                  then Serve(g, sv, r).1 == 400 && Active(after.table, t) == Active(sv.state.live.table, t)
                  else
                    && Serve(g, sv, r).1 in {200, 500}
                    && Active(after.table, t) ==
                       Active(sv.state.live.table - set i | 0 <= i < |keys.value| :: keys.value[i], t))
  {
    hide Serve;
    AdmittedIsHandled(g, sv, r);
    SweptReadsAlike(g, sv, r);
    if r.route.PurgeListed? && r.content.keys.Some? && KeysUsable(g.machine.limits, r.content.keys.value) {
      FollowedStep(g, sv, r, DeleteKeys(r.content.keys.value), t);
    }
  }

  lemma SweptReadsAlike(g: Settings, sv: Server, r: Request)
    ensures ReadBack.ReadsAlike(Swept(g, sv, r).live.table, sv.state.live.table, r.now)
  {
    ReadBack.ViewsAgreeAfterRead(sv.state.live.table, [], r.now);
  }

  /** One handled step, seen by readers as the map sees it. */
  lemma FollowedStep(g: Settings, sv: Server, r: Request, e: Event, t: int)
    requires t >= r.now && !e.Restart?
    ensures var s := Swept(g, sv, r);
            var after := Step(g.machine, s, e, r.now, r.env);
            Active(after.0.live.table, t) ==
            Active(ReadBack.Follow(g.machine.limits, sv.state.live.table, e, after.1, r.now), t)
  {
    hide Step, ReadBack.Follow, Swept;
    var s := Swept(g, sv, r);
    var after := Step(g.machine, s, e, r.now, r.env);
    SweptReadsAlike(g, sv, r);
    ReadBack.TableAfterStep(g.machine, Durability.Lost, s.(clock := r.now), e, r.now, r.env);
    StepIgnoresClock(g.machine, s, e, r.now, r.env);
    ReadBack.FollowReadsAlike(g.machine.limits, s.live.table, sv.state.live.table, e, after.1, r.now, r.now);
  }

  lemma StepIgnoresClock(cfg: Config, s: State, e: Event, now: int, env: Env)
    ensures Step(cfg, s.(clock := now), e, now, env) == Step(cfg, s, e, now, env)
  {
  }

  /** Client requests answered 200 or 500 have changed the record of that one client, as they say. */
  lemma ServedClient(g: Settings, sv: Server, r: Request, id: seq<byte>)
    requires Admitted(g, sv, r) && Serve(g, sv, r).1 in {200, 500}
    ensures var before, after := Clients.Lookup(sv.state.live.clients, id),
                                 Clients.Lookup(Serve(g, sv, r).0.state.live.clients, id);
            && (r.route.NewClient? ==>
                  && r.content.registration.Some?
                  && var (name, role) := r.content.registration.value;
                     after == if id == name then Some(Clients.Client(id, role, true, r.content.issued)) else before)
            && (r.route.RotateClient? ==>
                  if id == r.route.id then
                    before.Some? && after == Some(before.value.(active := true, hash := r.content.issued))
                  else after == before)
            && (r.route.InvalidateClient? ==>
                  if id == r.route.id then
                    before.Some? && after == Some(before.value.(active := false, hash := Zeros(32)))
                  else after == before)
  {
    hide Serve, Save, Replay, PurgeFrom, Load, Salvage, Clients.Register, Clients.Rotate, Clients.Invalidate,
         Clients.IndexOf;
    AdmittedIsHandled(g, sv, r);
    var cs := sv.state.live.clients;
    if r.route.NewClient? {
      var (name, role) := r.content.registration.value;
      ChangedRecord(cs, name, role, r.content.issued, id);
    } else if r.route.RotateClient? {
      ChangedRecord(cs, r.route.id, 0, r.content.issued, id);
    } else if r.route.InvalidateClient? {
      ChangedRecord(cs, r.route.id, 0, [], id);
    }
  }

  lemma ChangedRecord(cs: seq<Clients.Client>, name: seq<byte>, role: nat, hash: seq<byte>, id: seq<byte>)
    ensures Clients.Register(cs, name, role, hash).0 == Clients.Ok ==>
              Clients.Lookup(Clients.Register(cs, name, role, hash).1, id) ==
              if id == name then Some(Clients.Client(id, role, true, hash)) else Clients.Lookup(cs, id)
    ensures Clients.Rotate(cs, name, hash).0 == Clients.Ok ==>
              && Clients.Lookup(cs, name).Some?
              && Clients.Lookup(Clients.Rotate(cs, name, hash).1, id) ==
                 if id == name then Some(Clients.Lookup(cs, name).value.(active := true, hash := hash))
                 else Clients.Lookup(cs, id)
    ensures Clients.Invalidate(cs, name).0 == Clients.Ok ==>
              && Clients.Lookup(cs, name).Some?
              && Clients.Lookup(Clients.Invalidate(cs, name).1, id) ==
                 if id == name then Some(Clients.Lookup(cs, name).value.(active := false, hash := Zeros(32)))
                 else Clients.Lookup(cs, id)
  {
    Clients.ChangeIsOnePut(cs, name, role, hash);
    Clients.PutLookup(cs, Clients.Client(name, role, true, hash), id);
    if Clients.Lookup(cs, name).Some? {
      var c := Clients.Lookup(cs, name).value;
      Clients.PutLookup(cs, c.(active := true, hash := hash), id);
      Clients.PutLookup(cs, c.(active := false, hash := Zeros(32)), id);
    }
  }

  /** An export leaves what is served alone; an import answered 200 has replaced all of it by the file's state. */
  lemma ServedState(g: Settings, sv: Server, r: Request, t: int)
    requires Admitted(g, sv, r) && t >= r.now
    ensures r.route.ExportState? ==>
              Durability.View(Serve(g, sv, r).0.state.live, t) == Durability.View(sv.state.live, t)
    ensures r.route.ImportState? && Serve(g, sv, r).1 == 200 ==>
              && r.content.image.Some?
              && Serve(g, sv, r).0.state.live == Effects(EMPTY, ImageRecords(r.content.image.value), r.now)
  {
    hide Serve, Effects, Replay;
    AdmittedIsHandled(g, sv, r);
    SweptReadsAlike(g, sv, r);
    if r.route.ImportState? && Serve(g, sv, r).1 == 200 {
      ReplayComputesEffects(g.machine.limits, EMPTY, ImageRecords(r.content.image.value), r.now);
    }
  }

  // ---------------------------------------------------------------- how long expired entries stay

  /** Every entry in memory expires after `bound`. */
  predicate ExpireAfter(t: Table, bound: int) {
    forall k :: k in t ==> t[k].expires > bound
  }

  lemma {:induction false} LoadedEntriesLive(log: seq<Record>, t: int)
    ensures ExpireAfter(Effects(EMPTY, log, t).table, t)
  {
    if |log| > 0 {
      LoadedEntriesLive(log[..|log| - 1], t);
    }
  }

  lemma StepKeepsExpireAfter(cfg: Config, s: State, e: Event, now: int, env: Env, bound: int)
    requires ExpireAfter(s.live.table, bound) && bound <= now && cfg.minTtl > 0 && !e.Restart?
    ensures ExpireAfter(Step(cfg, s, e, now, env).0.live.table, bound)
  {
    hide Replay, Effects, Save, Checkpoint, PurgeFrom;
    if e.DeleteKeys? {
      ReadBack.PurgedTable(s.live, s.disk, e.keys, env);
    } else if e.ImportImage? && e.image.Some?
              && Replay(cfg.limits, EMPTY, ImageRecords(e.image.value), now).Some? {
      ReplayComputesEffects(cfg.limits, EMPTY, ImageRecords(e.image.value), now);
      LoadedEntriesLive(ImageRecords(e.image.value), now);
    }
  }

  /** Memory holds nothing that had expired at the last sweep. */
  predicate Clean(sv: Server) {
    sv.lastSweep <= sv.state.clock && ExpireAfter(sv.state.live.table, sv.lastSweep)
  }

  /** A server that has loaded its files is clean: loading drops what has expired. */
  lemma StartedServerIsClean(l: Limits, d: Disk, y: Live, now: int)
    requires Load(l, d, now) == Some(y)
    ensures Clean(Server(State(y, d, now), [], now))
  {
    ReplayComputesEffects(l, EMPTY, Log(d), now);
    LoadedEntriesLive(Log(d), now);
  }

  /** Every request leaves memory clean, with the last sweep less than an interval ago. */
  lemma ServeKeepsClean(g: Settings, sv: Server, r: Request)
    requires Clean(sv) && sv.state.clock <= r.now && g.machine.minTtl > 0 && g.sweepInterval > 0
    ensures var after := Serve(g, sv, r).0;
            Clean(after) && r.now - after.lastSweep < g.sweepInterval && after.state.clock <= r.now
  {
    hide Step, Limiter.Allow, Clients.Authenticate;
    var swept := MaybeSweep(g, sv, r);
    SweptIsClean(g, sv, r);
    var e := EventOf(g.machine.limits, r);
    if e.Some? {
      StepKeepsExpireAfter(g.machine, swept.state, e.value, r.now, r.env, swept.lastSweep);
      Pacing.ClockIsNow(g.machine, swept.state, e.value, r.now, r.env);
    }
  }

  lemma SweptIsClean(g: Settings, sv: Server, r: Request)
    requires Clean(sv) && sv.state.clock <= r.now && g.sweepInterval > 0
    ensures var swept := MaybeSweep(g, sv, r);
            Clean(swept) && r.now - swept.lastSweep < g.sweepInterval && swept.state.clock <= r.now
  {
  }

  /**
   Over every run of requests on a clock that does not go back, memory holds no entry that expired an
   interval or more before the last request.
   */
  lemma {:induction false} ExpiredEntriesStayLessThanAnInterval(g: Settings, sv: Server, rs: seq<Request>)
    requires Clean(sv) && Served(g, sv, rs) && g.machine.minTtl > 0 && g.sweepInterval > 0
    ensures var after := ServeAll(g, sv, rs);
            && Clean(after)
            && (|rs| > 0 ==> ExpireAfter(after.state.live.table, rs[|rs| - 1].now - g.sweepInterval))
  {
    hide Serve;
    if |rs| > 0 {
      var front := rs[..|rs| - 1];
      ExpiredEntriesStayLessThanAnInterval(g, sv, front);
      ServeKeepsClean(g, ServeAll(g, sv, front), rs[|rs| - 1]);
    }
  }
}
