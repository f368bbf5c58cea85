/** The request budget kept for each authenticated client: a fixed number of requests per window of seconds. */
module Limiter {
  import opened Bytes

  type Subject = seq<byte>

  /** Longest subject an entry can hold; client ids are never longer. */
  const SUBJECT_MAX: nat := 63

  datatype Budget = Budget(requests: nat, window: nat)

  predicate BudgetOk(b: Budget) {
    b.requests > 0 && b.window > 0
  }

  datatype Window = Window(subject: Subject, started: int, count: nat)

  function Find(ws: seq<Window>, s: Subject): (i: nat)
    ensures i <= |ws|
    ensures i < |ws| ==> ws[i].subject == s
    ensures forall j :: 0 <= j < i ==> ws[j].subject != s
  {
    if |ws| == 0 || ws[0].subject == s then 0 else 1 + Find(ws[1..], s)
  }

  /** Open a new window when the old one is over, then spend one request if any is left. */
  function Tick(b: Budget, w: Window, now: int): (Window, bool) {
    var v := if now - w.started >= b.window then w.(started := now, count := 0) else w;
    if v.count >= b.requests then (v, false) else (v.(count := v.count + 1), true)
  }

  function Opened(s: Subject, now: int): Window {
    Window(if |s| <= SUBJECT_MAX then s else s[..SUBJECT_MAX], now, 0)
  }

  function Allow(b: Budget, ws: seq<Window>, s: Subject, now: int): (seq<Window>, bool) {
    var i := Find(ws, s);
    if i < |ws| then
      var r := Tick(b, ws[i], now);
      (ws[i := r.0], r.1)
    else
      var r := Tick(b, Opened(s, now), now);
      (ws + [r.0], r.1)
  }

  // ---------------------------------------------------------------- the stored form

  class Table {
    const budget: Budget
    var entries: array<Window>
    var count: nat

    ghost predicate Valid()
      reads this, entries
    {
      count <= entries.Length
    }

    ghost function Windows(): seq<Window>
      requires Valid()
      reads this, entries
    {
      entries[..count]
    }

    constructor (budget: Budget)
      ensures Valid() && Windows() == [] && this.budget == budget && fresh(entries)
    {
      this.budget := budget;
      entries := new Window[0];
      count := 0;
    }

    method Search(s: Subject) returns (i: nat)
      requires Valid()
      ensures i == Find(Windows(), s)
    {
      i := 0;
      while i < count && entries[i].subject != s
        invariant i <= count
        invariant forall j :: 0 <= j < i ==> entries[j].subject != s
      {
        i := i + 1;
      }
    }

    /** Double the array when it is full. */
    method Grow()
      requires Valid()
      modifies this
      ensures Valid() && Windows() == old(Windows()) && count == old(count) < entries.Length
      ensures entries == old(entries) || fresh(entries)
    {
      if count == entries.Length {
        var grown := new Window[if entries.Length == 0 then 8 else entries.Length * 2];
        for i := 0 to count
          invariant entries == old(entries) && count == old(count)
          invariant grown[..i] == entries[..i]
        {
          grown[i] := entries[i];
        }
        entries := grown;
      }
    }

    /** The subject's entry, a new one if it has none. */
    method Locate(s: Subject, now: int) returns (i: nat)
      requires Valid()
      modifies this, entries
      ensures Valid() && (entries == old(entries) || fresh(entries))
      ensures i == Find(old(Windows()), s) && i < count
      ensures Windows() == if i < |old(Windows())| then old(Windows()) else old(Windows()) + [Opened(s, now)]
    {
      i := Search(s);
      if i == count {
        Grow();
        entries[count] := Opened(s, now);
        count := count + 1;
      }
    }

    method Spend(i: nat, now: int) returns (allowed: bool)
      requires Valid() && i < count
      modifies entries
      ensures Valid()
      ensures var r := Tick(budget, old(Windows())[i], now); Windows() == old(Windows())[i := r.0] && allowed == r.1
    {
      ghost var ws := Windows();
      if now - entries[i].started >= budget.window {
        entries[i] := entries[i].(started := now, count := 0);
      }
      if entries[i].count >= budget.requests {
        allowed := false;
      } else {
        entries[i] := entries[i].(count := entries[i].count + 1);
        allowed := true;
      }
      assert Windows() == ws[i := entries[i]];
    }

    method Admit(s: Subject, now: int) returns (allowed: bool)
      requires Valid()
      modifies this, entries
      ensures Valid() && (entries == old(entries) || fresh(entries))
      ensures (Windows(), allowed) == Allow(budget, old(Windows()), s, now)
    {
      hide Tick, Find;
      ghost var ws := Windows();
      var i := Locate(s, now);
      assert i == |ws| ==> Windows()[i] == Opened(s, now);
      allowed := Spend(i, now);
      assert i == |ws| ==> Windows() == ws + [Windows()[i]];
    }
  }

  // ---------------------------------------------------------------- one request

  ghost function Current(ws: seq<Window>, s: Subject): Option<Window> {
    var i := Find(ws, s);
    if i < |ws| then Some(ws[i]) else None
  }

  lemma {:induction false} FindAppended(ws: seq<Window>, w: Window, s: Subject)
    ensures Find(ws + [w], s) == if Find(ws, s) < |ws| then Find(ws, s) else if w.subject == s then |ws| else |ws| + 1
  {
    if |ws| > 0 {
      assert (ws + [w])[1..] == ws[1..] + [w];
      FindAppended(ws[1..], w, s);
    }
  }

  lemma {:induction false} FindUpdated(ws: seq<Window>, i: nat, w: Window, s: Subject)
    requires i < |ws| && w.subject == ws[i].subject
    ensures Find(ws[i := w], s) == Find(ws, s)
  {
    if i > 0 {
      assert ws[i := w][1..] == ws[1..][i - 1 := w];
      FindUpdated(ws[1..], i - 1, w, s);
    } else {
      assert ws[i := w][1..] == ws[1..];
    }
  }

  /** A request touches its own subject's window only. */
  lemma SubjectsAreIndependent(b: Budget, ws: seq<Window>, s: Subject, now: int, other: Subject)
    requires |s| <= SUBJECT_MAX && other != s
    ensures Current(Allow(b, ws, s, now).0, other) == Current(ws, other)
  {
    var i := Find(ws, s);
    if i < |ws| {
      FindUpdated(ws, i, Tick(b, ws[i], now).0, other);
    } else {
      FindAppended(ws, Tick(b, Opened(s, now), now).0, other);
    }
  }

  /** The subject's own window afterwards, and the answer. */
  lemma AllowTicks(b: Budget, ws: seq<Window>, s: Subject, now: int)
    requires |s| <= SUBJECT_MAX
    ensures var r := Tick(b, if Current(ws, s).Some? then Current(ws, s).value else Opened(s, now), now);
            Current(Allow(b, ws, s, now).0, s) == Some(r.0) && Allow(b, ws, s, now).1 == r.1
  {
    var i := Find(ws, s);
    if i < |ws| {
      FindUpdated(ws, i, Tick(b, ws[i], now).0, s);
    } else {
      FindAppended(ws, Tick(b, Opened(s, now), now).0, s);
    }
  }

  /** A refused request changes nothing at all. */
  lemma RefusalConsumesNothing(b: Budget, ws: seq<Window>, s: Subject, now: int)
    requires BudgetOk(b) && !Allow(b, ws, s, now).1
    ensures Allow(b, ws, s, now).0 == ws
  {
    var i := Find(ws, s);
    if i < |ws| {
      assert ws[i := ws[i]] == ws;
    }
  }

  // ---------------------------------------------------------------- runs

  datatype Request = Request(subject: Subject, at: int)

  function Serve(b: Budget, rs: seq<Request>): seq<Window> {
    if |rs| == 0 then []
    else
      var r := rs[|rs| - 1];
      Allow(b, Serve(b, rs[..|rs| - 1]), r.subject, r.at).0
  }

  predicate Granted(b: Budget, rs: seq<Request>)
    requires |rs| > 0
  {
    var r := rs[|rs| - 1];
    Allow(b, Serve(b, rs[..|rs| - 1]), r.subject, r.at).1
  }

  /** How many requests of `s` were granted at times in [x, x + window). */
  function GrantedIn(b: Budget, rs: seq<Request>, s: Subject, x: int): nat {
    if |rs| == 0 then 0
    else
      var r := rs[|rs| - 1];
      GrantedIn(b, rs[..|rs| - 1], s, x) +
      if r.subject == s && x <= r.at < x + b.window && Granted(b, rs) then 1 else 0
  }

  /** The clock never goes back during the run, and the subjects are client ids. */
  predicate Orderly(rs: seq<Request>) {
    && (forall i, j :: 0 <= i <= j < |rs| ==> rs[i].at <= rs[j].at)
    && (forall i :: 0 <= i < |rs| ==> |rs[i].subject| <= SUBJECT_MAX)
  }

  /** What is known of a subject after an orderly run, relative to an interval that starts at `x`. */
  ghost predicate Accounted(b: Budget, w: Option<Window>, granted: nat, x: int, last: int) {
    if w.None? then granted == 0
    else
      var v := w.value;
      && v.started <= last && 1 <= v.count <= b.requests && (last < x ==> granted == 0)
      && (if v.started < x then granted <= v.count - 1 && (b.window == 1 ==> granted == 0)
          else if v.started < x + b.window then granted <= v.count + (if b.window == 1 then 0 else b.requests - 1)
          else granted <= b.requests + (if b.window == 1 then 0 else b.requests - 1))
  }

  lemma TickKeepsAccount(b: Budget, w: Option<Window>, s: Subject, granted: nat, x: int, last: int, now: int)
    requires BudgetOk(b) && Accounted(b, w, granted, x, last) && last <= now
    ensures var r := Tick(b, if w.Some? then w.value else Opened(s, now), now);
            Accounted(b, Some(r.0), granted + (if x <= now < x + b.window && r.1 then 1 else 0), x, now)
  {
  }

  lemma {:induction false} RunKeepsAccount(b: Budget, rs: seq<Request>, s: Subject, x: int)
    requires BudgetOk(b) && Orderly(rs) && |s| <= SUBJECT_MAX
    ensures Accounted(b, Current(Serve(b, rs), s), GrantedIn(b, rs, s, x), x, if |rs| == 0 then 0 else rs[|rs| - 1].at)
  {
    if |rs| > 0 {
      var front, r := rs[..|rs| - 1], rs[|rs| - 1];
      RunKeepsAccount(b, front, s, x);
      var ws, last := Serve(b, front), if |front| == 0 then 0 else front[|front| - 1].at;
      if r.subject == s {
        AllowTicks(b, ws, s, r.at);
        if |front| == 0 {
          assert Accounted(b, Current(ws, s), 0, x, r.at);
          TickKeepsAccount(b, Current(ws, s), s, 0, x, r.at, r.at);
        } else {
          TickKeepsAccount(b, Current(ws, s), s, GrantedIn(b, front, s, x), x, last, r.at);
        }
      } else {
        SubjectsAreIndependent(b, ws, r.subject, r.at, s);
      }
    }
  }

  /**
   However the requests of all clients interleave, no client is granted more than 2N - 1 requests in
   any interval as long as the window (N if the window is a single second).
   */
  lemma AtMostTwoBudgetsPerInterval(b: Budget, rs: seq<Request>, s: Subject, x: int)
    requires BudgetOk(b) && Orderly(rs) && |s| <= SUBJECT_MAX
    ensures GrantedIn(b, rs, s, x) <= if b.window == 1 then b.requests else 2 * b.requests - 1
  {
    RunKeepsAccount(b, rs, s, x);
  }

  // ---------------------------------------------------------------- the bound is attained

  function Repeat(r: Request, n: nat): (s: seq<Request>)
    ensures |s| == n && forall i :: 0 <= i < n ==> s[i] == r
  {
    seq(n, i => r)
  }

  /** One request, N - 1 more just before the window ends, N when the next one starts. */
  function Burst(b: Budget, s: Subject): seq<Request>
    requires BudgetOk(b)
  {
    [Request(s, 0)] + Repeat(Request(s, b.window - 1), b.requests - 1) + Repeat(Request(s, b.window), b.requests)
  }

  /** One more request: the window afterwards and the grants so far. */
  lemma OneMore(b: Budget, rs: seq<Request>, s: Subject, t: int, x: int)
    requires |s| <= SUBJECT_MAX
    ensures var all, w := rs + [Request(s, t)], Current(Serve(b, rs), s);
            var r := Tick(b, if w.Some? then w.value else Opened(s, t), t);
            && Current(Serve(b, all), s) == Some(r.0)
            && GrantedIn(b, all, s, x) == GrantedIn(b, rs, s, x) + (if x <= t < x + b.window && r.1 then 1 else 0)
  {
    hide Tick, Find, Current, Allow;
    var all := rs + [Request(s, t)];
    assert all[..|all| - 1] == rs;
    AllowTicks(b, Serve(b, rs), s, t);
  }

  /** A group of requests at one time inside an open window with enough budget left is granted in full. */
  lemma {:induction false} GroupIsGranted(b: Budget, rs: seq<Request>, s: Subject, t: int, n: nat, w: Window, x: int)
    requires |s| <= SUBJECT_MAX && Current(Serve(b, rs), s) == Some(w)
    requires t - w.started < b.window && w.count + n <= b.requests && x <= t < x + b.window
    ensures var all := rs + Repeat(Request(s, t), n);
            && Current(Serve(b, all), s) == Some(w.(count := w.count + n))
            && GrantedIn(b, all, s, x) == GrantedIn(b, rs, s, x) + n
    decreases n
  {
    hide Serve, GrantedIn, Current;
    if n == 0 {
      assert rs + Repeat(Request(s, t), n) == rs;
    } else {
      var most := rs + Repeat(Request(s, t), n - 1);
      GroupIsGranted(b, rs, s, t, n - 1, w, x);
      OneMore(b, most, s, t, x);
      assert rs + Repeat(Request(s, t), n) == most + [Request(s, t)];
    }
  }

  /** A first request or one after the window's end opens a new window. */
  lemma OpensAWindow(b: Budget, rs: seq<Request>, s: Subject, t: int, x: int)
    requires |s| <= SUBJECT_MAX && BudgetOk(b)
    requires var w := Current(Serve(b, rs), s); w.None? || t - w.value.started >= b.window
    ensures var all := rs + [Request(s, t)];
            && Current(Serve(b, all), s) == Some(Window(s, t, 1))
            && GrantedIn(b, all, s, x) == GrantedIn(b, rs, s, x) + (if x <= t < x + b.window then 1 else 0)
  {
    hide Serve, GrantedIn;
    OneMore(b, rs, s, t, x);
  }

  lemma BurstIsOrderly(b: Budget, s: Subject)
    requires BudgetOk(b) && |s| <= SUBJECT_MAX
    ensures Orderly(Burst(b, s))
  {
    var rs := Burst(b, s);
    assert forall i :: 0 <= i < |rs| ==>
        rs[i] == Request(s, if i == 0 then 0 else if i < b.requests then b.window - 1 else b.window);
  }

  lemma BurstIsGranted(b: Budget, s: Subject)
    requires BudgetOk(b) && b.window >= 2 && |s| <= SUBJECT_MAX
    ensures GrantedIn(b, Burst(b, s), s, 1) == 2 * b.requests - 1
  {
    hide Serve, GrantedIn, Current, Repeat;
    NothingYet(b, s, 1);
    OpensAWindow(b, [], s, 0, 1);
    var first := [] + [Request(s, 0)];
    var second := first + Repeat(Request(s, b.window - 1), b.requests - 1);
    GroupIsGranted(b, first, s, b.window - 1, b.requests - 1, Window(s, 0, 1), 1);
    var third := second + [Request(s, b.window)];
    OpensAWindow(b, second, s, b.window, 1);
    GroupIsGranted(b, third, s, b.window, b.requests - 1, Window(s, b.window, 1), 1);
    assert Burst(b, s) == third + Repeat(Request(s, b.window), b.requests - 1);
  }

  lemma NothingYet(b: Budget, s: Subject, x: int)
    ensures Current(Serve(b, []), s) == None && GrantedIn(b, [], s, x) == 0
  {
  }

  /** With any window of two seconds or more, one client can be granted 2N - 1 requests within one window's length. */
  lemma TwoBudgetsAreReached(b: Budget, s: Subject)
    requires BudgetOk(b) && b.window >= 2 && |s| <= SUBJECT_MAX
    ensures Orderly(Burst(b, s)) && GrantedIn(b, Burst(b, s), s, 1) == 2 * b.requests - 1
  {
    BurstIsOrderly(b, s);
    BurstIsGranted(b, s);
  }

  /** A sliding budget: never more than N grants in any interval as long as the window. */
  ghost predicate Sliding(b: Budget) {
    forall rs, s, x :: Orderly(rs) && |s| <= SUBJECT_MAX ==> GrantedIn(b, rs, s, x) <= b.requests
  }

  /** The budget is sliding exactly when it allows one request per window or counts single seconds. */
  lemma SlidingExactlyForTrivialBudgets(b: Budget)
    requires BudgetOk(b)
    ensures Sliding(b) <==> b.requests == 1 || b.window == 1
  {
    forall rs, s, x | Orderly(rs) && |s| <= SUBJECT_MAX
      ensures GrantedIn(b, rs, s, x) <= if b.window == 1 then b.requests else 2 * b.requests - 1
    {
      AtMostTwoBudgetsPerInterval(b, rs, s, x);
    }
    if b.window >= 2 && b.requests >= 2 {
      TwoBudgetsAreReached(b, []);
    }
  }

  // ---------------------------------------------------------------- whatever the clock does

  /** The times at which windows of `s` were opened, in order. */
  function Starts(b: Budget, rs: seq<Request>, s: Subject): seq<int> {
    if |rs| == 0 then []
    else
      var before := Starts(b, rs[..|rs| - 1], s);
      var r := rs[|rs| - 1];
      if r.subject == s && (|before| == 0 || r.at - before[|before| - 1] >= b.window) then before + [r.at] else before
  }

  function AllGranted(b: Budget, rs: seq<Request>, s: Subject): nat {
    if |rs| == 0 then 0
    else AllGranted(b, rs[..|rs| - 1], s) + if rs[|rs| - 1].subject == s && Granted(b, rs) then 1 else 0
  }

  ghost predicate Spaced(b: Budget, starts: seq<int>, w: Option<Window>, granted: nat) {
    && (forall i :: 0 < i < |starts| ==> starts[i] - starts[i - 1] >= b.window)
    && (if |starts| == 0 then w.None? && granted == 0
        else
          && w.Some? && w.value.started == starts[|starts| - 1] && w.value.count <= b.requests
          && granted <= (|starts| - 1) * b.requests + w.value.count)
  }

  lemma TickKeepsSpacing(b: Budget, starts: seq<int>, w: Option<Window>, s: Subject, granted: nat, now: int)
    requires BudgetOk(b) && Spaced(b, starts, w, granted)
    ensures var r := Tick(b, if w.Some? then w.value else Opened(s, now), now);
            var later := if |starts| == 0 || now - starts[|starts| - 1] >= b.window then starts + [now] else starts;
            Spaced(b, later, Some(r.0), granted + if r.1 then 1 else 0)
  {
    var n := |starts|;
    assert n > 0 ==> n * b.requests == (n - 1) * b.requests + b.requests;
  }

  lemma NothingSpaced(b: Budget, s: Subject)
    ensures Spaced(b, [], Current([], s), 0)
  {
  }

  /** Even if the clock jumps, windows of one client open at least a window's length apart and grant at most N each. */
  lemma {:induction false} WindowsAreApart(b: Budget, rs: seq<Request>, s: Subject)
    requires BudgetOk(b) && |s| <= SUBJECT_MAX && forall i :: 0 <= i < |rs| ==> |rs[i].subject| <= SUBJECT_MAX
    ensures Spaced(b, Starts(b, rs, s), Current(Serve(b, rs), s), AllGranted(b, rs, s))
  {
    hide Tick, Spaced;
    if |rs| == 0 {
      NothingSpaced(b, s);
    } else {
      var front, r := rs[..|rs| - 1], rs[|rs| - 1];
      WindowsAreApart(b, front, s);
      if r.subject == s {
        AllowTicks(b, Serve(b, front), s, r.at);
        TickKeepsSpacing(b, Starts(b, front, s), Current(Serve(b, front), s), s, AllGranted(b, front, s), r.at);
      } else {
        SubjectsAreIndependent(b, Serve(b, front), r.subject, r.at, s);
      }
    }
  }
}
