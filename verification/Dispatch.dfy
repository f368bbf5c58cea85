/**
 Routing one request: sweep, then method, authentication, role and budget in the route's own order,
 then the handler, which is one step of the durability machine. Over whole runs, nothing the service
 keeps changes without a token of a sufficient role, and serving requests is a run of the machine.
 */
module Dispatch {
  import opened Bytes
  import opened CacheTable
  import opened Recovery
  import opened Machine
  import Clients
  import Durability
  import Limiter

  datatype Method = GET | PUT | DELETE | POST | OTHER

  /** What a request path names. A cache path carries its decoded key, or nothing when that is unusable. */
  datatype Route =
    | Health
    | Root
    | Cache(key: Option<Key>)
    | Report
    | NewClient
    | RotateClient(id: seq<byte>)
    | InvalidateClient(id: seq<byte>)
    | ExportState
    | ImportState
    | PurgeAllKeys
    | PurgeListed
    | Unknown

  /** What the handlers find in the body and around it: nothing where the body is unusable. */
  datatype Content = Content(
    put: Option<(seq<byte>, nat)>,
    registration: Option<(seq<byte>, nat)>,
    keys: Option<seq<Key>>,
    image: Option<Image>,
    issued: seq<byte>,
    exportRoom: bool,
    exportWritten: bool)

  /** `token` is the digest of the bearer token, if one was sent. */
  datatype Request = Request(
    route: Route,
    verb: Method,
    token: Option<seq<byte>>,
    content: Content,
    now: int,
    sweepEnv: Env,
    env: Env)

  datatype Settings = Settings(machine: Config, bootstrapHash: seq<byte>, budget: Limiter.Budget, sweepInterval: nat)

  datatype Server = Server(state: State, windows: seq<Limiter.Window>, lastSweep: int)

  function RequiredRole(route: Route): nat {
    match route
    case Health => Clients.ROLE_NONE
    case Root => Clients.ROLE_NONE
    case Unknown => Clients.ROLE_NONE
    case Cache(_) => Clients.ROLE_CLIENT
    case Report => Clients.ROLE_OPERATOR
    case _ => Clients.ROLE_ADMIN
  }

  function RequiredMethod(route: Route): Method {
    if route.Health? || route.Root? || route.Report? then GET else POST
  }

  predicate KeysUsable(l: Limits, keys: seq<Key>) {
    |keys| > 0 && forall i :: 0 <= i < |keys| ==> 0 < |keys[i]| <= l.maxKey
  }

  predicate IdUsable(id: seq<byte>) {
    0 < |id| < Clients.ID_CAP
  }

  /** The step a request asks for; `None` is a 400 (or a report, which changes nothing). */
  function EventOf(l: Limits, r: Request): Option<Event> {
    match r.route
    case Cache(Some(k)) =>
      (match r.verb
       case GET => Some(Get(k))
       case PUT => if r.content.put.Some? then Some(PutEntry(k, r.content.put.value.0, r.content.put.value.1)) else None
       case DELETE => Some(DeleteKey(k))
       case _ => None)
    case NewClient =>
      if r.content.registration.Some?
      then Some(RegisterClient(r.content.registration.value.0, r.content.registration.value.1, r.content.issued))
      else None
    case RotateClient(id) => if IdUsable(id) then Some(RotateToken(id, r.content.issued)) else None
    case InvalidateClient(id) => if IdUsable(id) then Some(InvalidateToken(id)) else None
    case ExportState => Some(Export(r.content.exportRoom, r.content.exportWritten))
    case ImportState => Some(ImportImage(r.content.image))
    case PurgeAllKeys => Some(DeleteAll)
    case PurgeListed =>
      if r.content.keys.Some? && KeysUsable(l, r.content.keys.value)
      then Some(DeleteKeys(r.content.keys.value))
      else None
    case _ => None
  }

  predicate SweepDue(g: Settings, sv: Server, now: int) {
    sv.lastSweep == 0 || now - sv.lastSweep >= g.sweepInterval
  }

  ghost function MaybeSweep(g: Settings, sv: Server, r: Request): Server {
    if SweepDue(g, sv, r.now)
    then sv.(state := Step(g.machine, sv.state, Sweep, r.now, r.sweepEnv).0, lastSweep := r.now)
    else sv
  }

  /** Token, role and budget, in this order; the second part is the refusing status, or 0. */
  function Admission(g: Settings, sv: Server, token: Option<seq<byte>>, role: nat, now: int): (Server, nat) {
    if token.None? then (sv, 401)
    else
      match Clients.Authenticate(sv.state.live.clients, g.bootstrapHash, token.value)
      case None => (sv, 401)
      case Some(p) =>
        if p.role < role then (sv, 403)
        else
          var a := Limiter.Allow(g.budget, sv.windows, p.id, now);
          (sv.(windows := a.0), if a.1 then 0 else 429)
  }

  function Authorize(g: Settings, sv: Server, r: Request): (Server, nat) {
    Admission(g, sv, r.token, RequiredRole(r.route), r.now)
  }

  ghost function Handle(g: Settings, sv: Server, r: Request): (Server, nat) {
    if r.route.Report? then (sv, 200)
    else
      match EventOf(g.machine.limits, r)
      case None => (sv, 400)
      case Some(e) =>
        var s := Step(g.machine, sv.state, e, r.now, r.env);
        (sv.(state := s.0), s.1)
  }

  ghost function Guarded(g: Settings, sv: Server, r: Request): (Server, nat) {
    var a := Authorize(g, sv, r);
    if a.1 != 0 then a
    else if r.route.Cache? && r.verb !in {GET, PUT, DELETE} then (a.0, 405)
    else Handle(g, a.0, r)
  }

  ghost function Serve(g: Settings, sv: Server, r: Request): (Server, nat) {
    var swept := MaybeSweep(g, sv, r);
    match r.route
    case Unknown => (swept, 404)
    case Cache(None) => (swept, 400)
    case Cache(_) => Guarded(g, swept, r)
    case _ =>
      if r.verb != RequiredMethod(r.route) then (swept, 405)
      else if r.route.Health? || r.route.Root? then (swept, 200)
      else Guarded(g, swept, r)
  }

  // ---------------------------------------------------------------- one request

  /** Registry, files and the entries unexpired at `t` are the same. */
  ghost predicate SameAt(a: State, b: State, t: int) {
    Durability.View(a.live, t) == Durability.View(b.live, t) && a.disk == b.disk
  }

  /** A token that authenticates with at least this role. */
  predicate Holds(g: Settings, cs: seq<Clients.Client>, token: Option<seq<byte>>, role: nat) {
    && token.Some?
    && var p := Clients.Authenticate(cs, g.bootstrapHash, token.value);
    p.Some? && p.value.role >= role
  }

  predicate Admits(g: Settings, sv: Server, r: Request) {
    && r.token.Some?
    && var p := Clients.Authenticate(sv.state.live.clients, g.bootstrapHash, r.token.value);
    p.Some? && Limiter.Allow(g.budget, sv.windows, p.value.id, r.now).1
  }

  lemma SweepIsInvisible(g: Settings, sv: Server, r: Request, t: int)
    requires t >= r.now
    ensures var swept := MaybeSweep(g, sv, r);
            SameAt(swept.state, sv.state, t) && swept.windows == sv.windows
  {
    assert Active(Active(sv.state.live.table, r.now), t) == Active(sv.state.live.table, t);
  }

  lemma RefusedIsUntouched(g: Settings, sv: Server, r: Request)
    ensures Authorize(g, sv, r).1 != 0 ==> Guarded(g, sv, r).0.state == sv.state
    ensures Authorize(g, sv, r).1 == 0 <==>
              Holds(g, sv.state.live.clients, r.token, RequiredRole(r.route)) && Admits(g, sv, r)
    ensures Authorize(g, sv, r).0.state == sv.state
  {
  }

  /**
   If a request changes the registry, the files or an unexpired entry, it carried a token whose role
   the route requires, and the budget of that token's client admitted it.
   */
  lemma ChangeIsAuthorized(g: Settings, sv: Server, r: Request, t: int)
    requires t >= r.now && !SameAt(Serve(g, sv, r).0.state, sv.state, t)
    ensures RequiredRole(r.route) > Clients.ROLE_NONE
    ensures Holds(g, sv.state.live.clients, r.token, RequiredRole(r.route)) && Admits(g, sv, r)
  {
    hide Step, Limiter.Allow, Clients.Authenticate, Handle;
    SweepIsInvisible(g, sv, r, t);
    RefusedIsUntouched(g, MaybeSweep(g, sv, r), r);
    assert MaybeSweep(g, sv, r).state.live.clients == sv.state.live.clients;
  }

  /** The import that decodes: the one event whose failure status follows a change. */
  ghost predicate Replaces(g: Settings, r: Request) {
    && r.route.ImportState? && r.content.image.Some?
    && Replay(g.machine.limits, EMPTY, ImageRecords(r.content.image.value), r.now).Some?
  }

  lemma UnansweredStepChangesNothing(g: Settings, s: State, r: Request, e: Event, t: int)
    requires EventOf(g.machine.limits, r) == Some(e) && t >= r.now
    requires Step(g.machine, s, e, r.now, r.env).1 !in {200, 500}
    requires !(Replaces(g, r) && Step(g.machine, s, e, r.now, r.env).1 == 400)
    ensures SameAt(Step(g.machine, s, e, r.now, r.env).0, s, t)
  {
    if e.Get? {
      GetKeepsView(s.live.table, e.key, r.now, t);
    }
  }

  lemma GetKeepsView(table: Table, k: Key, now: int, t: int)
    requires t >= now
    ensures Active(CacheTable.Get(table, k, now).1, t) == Active(table, t)
  {
  }

  /**
   Any status but 200 and 500 leaves everything as it was, whoever asked for what; the one exception is a
   400 to an import whose file decodes, which follows a failed checkpoint.
   */
  lemma RefusingStatusChangesNothing(g: Settings, sv: Server, r: Request, t: int)
    requires t >= r.now && Serve(g, sv, r).1 !in {200, 500}
    requires !(Replaces(g, r) && Serve(g, sv, r).1 == 400)
    ensures SameAt(Serve(g, sv, r).0.state, sv.state, t)
  {
    hide Step, Limiter.Allow, Clients.Authenticate;
    SweepIsInvisible(g, sv, r, t);
    var swept := MaybeSweep(g, sv, r);
    RefusedIsUntouched(g, swept, r);
    var e := EventOf(g.machine.limits, r);
    if e.Some? && Step(g.machine, swept.state, e.value, r.now, r.env).1 == Serve(g, sv, r).1 {
      UnansweredStepChangesNothing(g, swept.state, r, e.value, t);
    }
  }

  /** An administrator's import of an empty export into a server that holds `b`, with a failing checkpoint. */
  function FailingImport(): Request {
    var env := Env(i => NothingWritten, NotRenamed, []);
    Request(ImportState, POST, Some([1]), Content(None, None, None, Some(Image([], [])), [], true, true), 0, env, env)
  }

  /** The excepted 400 exists: the live state has been replaced although the import is answered as failed. */
  lemma A400CanFollowAReplacement(g: Settings, sv: Server)
    requires g.bootstrapHash == [1] && Limiter.BudgetOk(g.budget) && g.sweepInterval > 0
    requires sv == Server(State(Live(map[[98] := Entry([], 100)], []), NO_FILES, 0), [], 1)
    ensures var r := Serve(g, sv, FailingImport());
            r.1 == 400 && r.0.state.live == EMPTY && !SameAt(r.0.state, sv.state, 0)
  {
    var r := FailingImport();
    assert ImageRecords(Image([], [])) == [];
    assert Limiter.Find([], Clients.BootstrapId()) == 0;
    assert !SweepDue(g, sv, 0);
    assert Authorize(g, sv, r).1 == 0;
    assert [98] in Active(sv.state.live.table, 0);
  }

  // ---------------------------------------------------------------- whole runs

  ghost function ServeAll(g: Settings, sv: Server, rs: seq<Request>): Server {
    if |rs| == 0 then sv else Serve(g, ServeAll(g, sv, rs[..|rs| - 1]), rs[|rs| - 1]).0
  }

  /** Without a client token nothing changes: neither the registry nor the files nor any unexpired entry. */
  lemma {:induction false} NothingChangesWithoutAToken(g: Settings, sv: Server, rs: seq<Request>, t: int)
    requires forall i :: 0 <= i < |rs| ==>
               rs[i].now <= t && !Holds(g, sv.state.live.clients, rs[i].token, Clients.ROLE_CLIENT)
    ensures SameAt(ServeAll(g, sv, rs).state, sv.state, t)
  {
    hide Serve, Clients.Authenticate;
    if |rs| > 0 {
      var front, r := ServeAll(g, sv, rs[..|rs| - 1]), rs[|rs| - 1];
      NothingChangesWithoutAToken(g, sv, rs[..|rs| - 1], t);
      assert front.state.live.clients == sv.state.live.clients;
      assert !Holds(g, sv.state.live.clients, r.token, Clients.ROLE_CLIENT);
      if !SameAt(Serve(g, front, r).0.state, front.state, t) {
        ChangeIsAuthorized(g, front, r, t);
      }
    }
  }

  lemma CacheEventsKeepClients(g: Settings, s: State, r: Request, e: Event)
    requires r.route.Cache? && EventOf(g.machine.limits, r) == Some(e)
    ensures Step(g.machine, s, e, r.now, r.env).0.live.clients == s.live.clients
  {
  }

  lemma RegistryChangeIsAdministrative(g: Settings, sv: Server, r: Request)
    requires Serve(g, sv, r).0.state.live.clients != sv.state.live.clients
    ensures Holds(g, sv.state.live.clients, r.token, Clients.ROLE_ADMIN)
  {
    hide Step, Limiter.Allow, Clients.Authenticate;
    ChangeIsAuthorized(g, sv, r, r.now);
    SweepIsInvisible(g, sv, r, r.now);
    var swept := MaybeSweep(g, sv, r);
    RefusedIsUntouched(g, swept, r);
    var e := EventOf(g.machine.limits, r);
    if r.route.Cache? && e.Some? {
      CacheEventsKeepClients(g, swept.state, r, e.value);
    }
  }

  /** The registry changes only if, at some point, somebody presents an administrator's token. */
  lemma {:induction false} RegistryNeedsAnAdministrator(g: Settings, sv: Server, rs: seq<Request>)
    requires forall i :: 0 <= i < |rs| ==> !Holds(g, sv.state.live.clients, rs[i].token, Clients.ROLE_ADMIN)
    ensures ServeAll(g, sv, rs).state.live.clients == sv.state.live.clients
  {
    hide Serve, Clients.Authenticate;
    if |rs| > 0 {
      var front, r := ServeAll(g, sv, rs[..|rs| - 1]), rs[|rs| - 1];
      RegistryNeedsAnAdministrator(g, sv, rs[..|rs| - 1]);
      assert !Holds(g, sv.state.live.clients, r.token, Clients.ROLE_ADMIN);
      if Serve(g, front, r).0.state.live.clients != front.state.live.clients {
        RegistryChangeIsAdministrative(g, front, r);
      }
    }
  }

  // ---------------------------------------------------------------- requests are moves of the machine

  ghost predicate Reaches(g: Settings, sv: Server, r: Request) {
    && EventOf(g.machine.limits, r).Some?
    && Authorize(g, MaybeSweep(g, sv, r), r).1 == 0
    && (r.route.Cache? || r.verb == RequiredMethod(r.route))
  }

  ghost function MovesOf(g: Settings, sv: Server, r: Request): seq<Durability.Move> {
    (if SweepDue(g, sv, r.now) then [Durability.Move(Sweep, r.now, r.sweepEnv)] else []) +
    (if Reaches(g, sv, r) then [Durability.Move(EventOf(g.machine.limits, r).value, r.now, r.env)] else [])
  }

  ghost function AllMoves(g: Settings, sv: Server, rs: seq<Request>): seq<Durability.Move> {
    if |rs| == 0 then []
    else AllMoves(g, sv, rs[..|rs| - 1]) + MovesOf(g, ServeAll(g, sv, rs[..|rs| - 1]), rs[|rs| - 1])
  }

  lemma {:induction false} RunConcat(cfg: Config, s: State, a: seq<Durability.Move>, b: seq<Durability.Move>)
    ensures Durability.Run(cfg, s, a + b) == Durability.Run(cfg, Durability.Run(cfg, s, a), b)
  {
    hide Step;
    if |b| == 0 {
      assert a + b == a;
    } else {
      assert (a + b)[..|a + b| - 1] == a + b[..|b| - 1];
      RunConcat(cfg, s, a, b[..|b| - 1]);
    }
  }

  lemma RunOne(cfg: Config, s: State, m: Durability.Move)
    ensures Durability.Run(cfg, s, [m]) == Step(cfg, s, m.event, m.now, m.env).0
    ensures Durability.Run(cfg, s, []) == s
  {
    hide Step;
    assert [m][..0] == [];
    assert Durability.Run(cfg, s, [m][..0]) == s;
  }

  lemma ServingIsOneOrTwoMoves(g: Settings, sv: Server, r: Request)
    ensures Serve(g, sv, r).0.state == Durability.Run(g.machine, sv.state, MovesOf(g, sv, r))
  {
    hide Step, Durability.Run, Limiter.Allow, Clients.Authenticate;
    var sweep := Durability.Move(Sweep, r.now, r.sweepEnv);
    var swept := MaybeSweep(g, sv, r);
    var first := if SweepDue(g, sv, r.now) then [sweep] else [];
    RunOne(g.machine, sv.state, sweep);
    RefusedIsUntouched(g, swept, r);
    assert first + [] == first;
    if Reaches(g, sv, r) {
      var m := Durability.Move(EventOf(g.machine.limits, r).value, r.now, r.env);
      RunConcat(g.machine, sv.state, first, [m]);
      RunOne(g.machine, swept.state, m);
    }
  }

  /** Serving any sequence of requests is a run of the durability machine. */
  lemma {:induction false} ServingIsARun(g: Settings, sv: Server, rs: seq<Request>)
    ensures ServeAll(g, sv, rs).state == Durability.Run(g.machine, sv.state, AllMoves(g, sv, rs))
  {
    hide Serve, MovesOf;
    if |rs| == 0 {
      RunOne(g.machine, sv.state, Durability.Move(Sweep, 0, Env(_ => Appended, Complete, [])));
    } else {
      var front := ServeAll(g, sv, rs[..|rs| - 1]);
      ServingIsARun(g, sv, rs[..|rs| - 1]);
      ServingIsOneOrTwoMoves(g, front, rs[|rs| - 1]);
      RunConcat(g.machine, sv.state, AllMoves(g, sv, rs[..|rs| - 1]), MovesOf(g, front, rs[|rs| - 1]));
    }
  }

  // ---------------------------------------------------------------- and the machine allows them

  /** What the request buffers and digests guarantee of a request, and the machine asks of its events. */
  predicate WellSized(r: Request) {
    && (r.route.Cache? && r.route.key.Some? ==> |r.route.key.value| < REQUEST_CAPACITY)
    && (r.content.put.Some? ==> |r.content.put.value.0| < REQUEST_CAPACITY)
    && (r.content.registration.Some? ==> r.content.registration.value.1 < TWO_32)
    && (r.content.keys.Some? ==>
          forall i :: 0 <= i < |r.content.keys.value| ==> |r.content.keys.value[i]| < REQUEST_CAPACITY)
    && (r.content.image.Some? ==> GoodLog(ImageRecords(r.content.image.value)))
    && |r.content.issued| == Clients.HASH_SIZE
  }

  /** The clock does not go back, and checkpoints list what is unexpired when they are written. */
  ghost predicate Timely(g: Settings, sv: Server, r: Request) {
    && sv.state.clock <= r.now <= LAST_CLOCK
    && Lists(r.sweepEnv.listing, Active(MaybeSweep(g, sv, r).state.live.table, r.now))
    && Lists(r.env.listing, Active(Serve(g, sv, r).0.state.live.table, r.now))
  }

  ghost predicate Served(g: Settings, sv: Server, rs: seq<Request>) {
    |rs| > 0 ==>
      var front, r := rs[..|rs| - 1], rs[|rs| - 1];
      Served(g, sv, front) && WellSized(r) && Timely(g, ServeAll(g, sv, front), r)
  }

  lemma {:induction false} ValidRunConcat(cfg: Config, s: State, a: seq<Durability.Move>, b: seq<Durability.Move>)
    requires Durability.ValidRun(cfg, s, a) && Durability.ValidRun(cfg, Durability.Run(cfg, s, a), b)
    ensures Durability.ValidRun(cfg, s, a + b)
  {
    hide Step, Allowed;
    if |b| == 0 {
      assert a + b == a;
    } else {
      assert (a + b)[..|a + b| - 1] == a + b[..|b| - 1];
      ValidRunConcat(cfg, s, a, b[..|b| - 1]);
      RunConcat(cfg, s, a, b[..|b| - 1]);
    }
  }

  lemma ValidRunOne(cfg: Config, s: State, m: Durability.Move)
    requires Allowed(cfg, s, m.event, m.now, m.env)
    ensures Durability.ValidRun(cfg, s, [m])
  {
    hide Step, Allowed;
    assert [m][..0] == [];
    assert Durability.ValidRun(cfg, s, []);
    RunOne(cfg, s, m);
  }

  lemma EventIsGood(g: Settings, r: Request)
    requires WellSized(r) && EventOf(g.machine.limits, r).Some?
    ensures GoodEvent(EventOf(g.machine.limits, r).value)
  {
  }

  lemma OneRequestIsAValidRun(g: Settings, sv: Server, r: Request)
    requires WellSized(r) && Timely(g, sv, r)
    ensures Durability.ValidRun(g.machine, sv.state, MovesOf(g, sv, r))
  {
    hide Durability.Run, Durability.ValidRun, Limiter.Allow, Clients.Authenticate, Replay, PurgeFrom, ChangeClient,
         Load, GoodEvent, WellSized;
    var sweep := Durability.Move(Sweep, r.now, r.sweepEnv);
    var swept := MaybeSweep(g, sv, r);
    var first := if SweepDue(g, sv, r.now) then [sweep] else [];
    assert Durability.ValidRun(g.machine, sv.state, first)
           && Durability.Run(g.machine, sv.state, first) == swept.state by {
      RunOne(g.machine, sv.state, sweep);
      EmptyRunIsValid(g.machine, sv.state);
      if SweepDue(g, sv, r.now) {
        SweepIsGood();
        ValidRunOne(g.machine, sv.state, sweep);
      }
    }
    assert first + [] == first;
    if Reaches(g, sv, r) {
      var m := Durability.Move(EventOf(g.machine.limits, r).value, r.now, r.env);
      ReachedStep(g, sv, r);
      EventIsGood(g, r);
      ValidRunOne(g.machine, swept.state, m);
      ValidRunConcat(g.machine, sv.state, first, [m]);
    }
  }

  lemma EmptyRunIsValid(cfg: Config, s: State)
    ensures Durability.ValidRun(cfg, s, [])
  {
  }

  lemma SweepIsGood()
    ensures GoodEvent(Sweep)
  {
  }

  lemma ReachedStep(g: Settings, sv: Server, r: Request)
    requires Reaches(g, sv, r)
    ensures var swept := MaybeSweep(g, sv, r);
            && Serve(g, sv, r).0.state ==
               Step(g.machine, swept.state, EventOf(g.machine.limits, r).value, r.now, r.env).0
            && swept.state.clock in {sv.state.clock, r.now}
  {
    hide Limiter.Allow, Clients.Authenticate, Replay, PurgeFrom, ChangeClient, Load;
    RefusedIsUntouched(g, MaybeSweep(g, sv, r), r);
  }

  /** Requests as the service receives them, on a clock that does not go back, are a run the machine allows. */
  lemma {:induction false} ServingIsAValidRun(g: Settings, sv: Server, rs: seq<Request>)
    requires Served(g, sv, rs)
    ensures Durability.ValidRun(g.machine, sv.state, AllMoves(g, sv, rs))
  {
    hide Serve, MovesOf, WellSized, Timely, Durability.Run;
    if |rs| == 0 {
      EmptyRunIsValid(g.machine, sv.state);
    } else {
      var front := ServeAll(g, sv, rs[..|rs| - 1]);
      ServingIsAValidRun(g, sv, rs[..|rs| - 1]);
      ServingIsARun(g, sv, rs[..|rs| - 1]);
      OneRequestIsAValidRun(g, front, rs[|rs| - 1]);
      ValidRunConcat(g.machine, sv.state, AllMoves(g, sv, rs[..|rs| - 1]), MovesOf(g, front, rs[|rs| - 1]));
    }
  }

  /**
   What a restart finds after any sequence of requests, from any server whose files are exact: as long as
   checkpoints complete below 4 GiB and no overwrite shortens a life, exactly the clients and the
   unexpired entries.
   */
  lemma RestartAfterServing(g: Settings, sv: Server, rs: seq<Request>, t: int)
    requires Inv(g.machine, sv.state)
    requires Durability.Holds(g.machine.limits, Durability.Exact, sv.state.disk, sv.state.live, sv.state.clock)
    requires Served(g, sv, rs) && Durability.Dependable(g.machine, sv.state, AllMoves(g, sv, rs))
    requires t >= ServeAll(g, sv, rs).state.clock
    ensures var s := ServeAll(g, sv, rs).state;
            Load(g.machine.limits, s.disk, t) == Some(Durability.View(s.live, t))
  {
    hide Serve, ServeAll, AllMoves, Step, Durability.Run, Durability.RunQuality, Durability.ValidRun,
         Durability.Dependable, Load, Served, Inv;
    Durability.DependableRunsStayExact(g.machine, sv.state, AllMoves(g, sv, rs));
    ServingIsARun(g, sv, rs);
    ServingIsAValidRun(g, sv, rs);
    Durability.RestartRefinement(g.machine, Durability.Exact, sv.state, AllMoves(g, sv, rs), t);
  }
}
