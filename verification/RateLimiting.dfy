/**
 Rate limiters that latch locked, and the drain that replaces the stuck ones. A
 limiter is a locked flag that only a spend on it can change; the middleware never
 spends on a locked one, so only replacement or eviction ends a lock.
 */
module RateLimiting {
  import opened Basics

  type Ip = string
  type Time = int // milliseconds

  /** born: the number of the event that created it, which tells it from earlier ones in its place. */
  datatype Limiter = Limiter(born: nat, locked: bool)

  /**
   Served: a request; the two flags are what spending on each limiter leaves it at.
   Evicted: the LRU dropped a client. Tick: the drain ran.
   */
  datatype Event =
    | Served(ip: Ip, control: bool, clientLocks: bool, globalLocks: bool)
    | Evicted(ip: Ip)
    | Tick(now: Time)

  datatype State = State(
    clients: map<Ip, Limiter>,
    global: Limiter,
    clientSince: map<Ip, Time>, // drain-local: first tick that saw a client locked
    globalSince: Option<Time>,
    count: nat)                 // events so far

  // ---- the drain's rule for one limiter ----

  predicate Swaps(since: Option<Time>, locked: bool, now: Time, window: nat) {
    locked && since.Some? && now - since.value >= window
  }

  function Watch(since: Option<Time>, locked: bool, now: Time, window: nat): Option<Time> {
    if !locked || Swaps(since, locked, now, window) then None
    else if since.None? then Some(now)
    else since
  }

  // ---- all of them ----

  function Lookup<V>(m: map<Ip, V>, ip: Ip): Option<V> {
    if ip in m then Some(m[ip]) else None
  }

  /** What becomes of one limiter at a tick. */
  function Drained(lim: Limiter, since: Option<Time>, now: Time, window: nat, count: nat): Limiter {
    if Swaps(since, lim.locked, now, window) then Limiter(count, false) else lim
  }

  function DrainedClients(clients: map<Ip, Limiter>, since: map<Ip, Time>, now: Time, window: nat, count: nat)
    : map<Ip, Limiter>
  {
    map ip | ip in clients :: Drained(clients[ip], Lookup(since, ip), now, window, count)
  }

  function WatchedClients(clients: map<Ip, Limiter>, since: map<Ip, Time>, now: Time, window: nat): map<Ip, Time> {
    map ip | ip in clients && Watch(Lookup(since, ip), clients[ip].locked, now, window).Some? ::
      Watch(Lookup(since, ip), clients[ip].locked, now, window).value
  }

  function Apply(s: State, e: Event, window: nat): State {
    match e
    case Tick(now) =>
      State(DrainedClients(s.clients, s.clientSince, now, window, s.count),
            Drained(s.global, s.globalSince, now, window, s.count),
            WatchedClients(s.clients, s.clientSince, now, window),
            Watch(s.globalSince, s.global.locked, now, window),
            s.count + 1)
    case Evicted(ip) => s.(clients := s.clients - {ip}, count := s.count + 1)
    case Served(ip, control, clientLocks, globalLocks) =>
      var lim := if ip in s.clients then s.clients[ip] else Limiter(s.count, false);
      var rejected := lim.locked || (!control && s.global.locked);
      s.(clients := s.clients[ip := if rejected then lim else lim.(locked := clientLocks)],
         global := if rejected || control then s.global else s.global.(locked := globalLocks),
         count := s.count + 1)
  }

  function After(history: seq<Event>, window: nat): State {
    if history == [] then State(map[], Limiter(0, false), map[], None, 1)
    else Apply(After(history[..|history| - 1], window), history[|history| - 1], window)
  }

  lemma SameLookups(a: map<Ip, Time>, b: map<Ip, Time>)
    requires forall ip :: Lookup(a, ip) == Lookup(b, ip)
    ensures a == b
  {
    forall ip
      ensures ip in a <==> ip in b
      ensures ip in a ==> a[ip] == b[ip]
    {
      assert Lookup(a, ip) == Lookup(b, ip);
    }
  }

  class RateLimiters {
    const window: nat
    var clients: map<Ip, Limiter>
    var global: Limiter
    var clientSince: map<Ip, Time>
    var globalSince: Option<Time>
    var count: nat

    ghost function Abstract(): State
      reads this
    {
      State(clients, global, clientSince, globalSince, count)
    }

    constructor (window: nat)
      ensures this.window == window
      ensures Abstract() == After([], window)
    {
      this.window := window;
      clients, global, clientSince, globalSince, count := map[], Limiter(0, false), map[], None, 1;
    }

    /** Get or create. */
    method Client(ip: Ip) returns (lim: Limiter)
      modifies this`clients
      ensures lim == if ip in old(clients) then old(clients)[ip] else Limiter(count, false)
      ensures clients == old(clients)[ip := lim]
    {
      if ip in clients {
        lim := clients[ip];
      } else {
        lim := Limiter(count, false);
      }
      clients := clients[ip := lim];
    }

    /** The middleware; the flags are what the limiters' own bookkeeping would decide. */
    method Serve(ip: Ip, control: bool, clientLocks: bool, globalLocks: bool) returns (ok: bool)
      modifies this
      ensures Abstract() == Apply(old(Abstract()), Served(ip, control, clientLocks, globalLocks), window)
      ensures ok <==> !(ip in old(clients) && old(clients)[ip].locked) && (control || !old(global).locked)
      ensures ok ==> ip in clients && clients[ip].locked == clientLocks
      ensures ok ==> global.locked == if control then old(global).locked else globalLocks
      ensures !ok ==> global == old(global) && ip in clients && (ip in old(clients) ==> clients == old(clients))
    {
      var lim := Client(ip);
      ok := !(lim.locked || (!control && global.locked));
      if ok {
        if !control {
          global := global.(locked := globalLocks);
        }
        clients := clients[ip := lim.(locked := clientLocks)];
      }
      count := count + 1;
    }

    method ResetGlobalIfStuck(since: Option<Time>, now: Time) returns (next: Option<Time>)
      modifies this`global
      ensures next == Watch(since, old(global).locked, now, window)
      ensures global == Drained(old(global), since, now, window, count)
    {
      if !global.locked {
        return None;
      }
      if since.None? {
        return Some(now);
      }
      if now - since.value >= window {
        global := Limiter(count, false);
        return None;
      }
      return since;
    }

    /** The drain's step for one locked client. */
    method ResetClientIfStuck(ip: Ip, now: Time)
      requires ip in clients && clients[ip].locked
      modifies this`clients, this`clientSince
      ensures clients == old(clients)[ip := Drained(old(clients)[ip], Lookup(old(clientSince), ip), now, window, count)]
      ensures Lookup(clientSince, ip) == Watch(Lookup(old(clientSince), ip), true, now, window)
      ensures forall other | other != ip :: Lookup(clientSince, other) == Lookup(old(clientSince), other)
    {
      if ip !in clientSince {
        clientSince := clientSince[ip := now];
      } else if now - clientSince[ip] >= window {
        clients := clients[ip := Limiter(count, false)];
        clientSince := clientSince - {ip};
      }
    }

    method ResetStuckClients(now: Time)
      modifies this`clients, this`clientSince
      ensures clients == DrainedClients(old(clients), old(clientSince), now, window, count)
      ensures clientSince == WatchedClients(old(clients), old(clientSince), now, window)
    {
      ghost var before, since := clients, clientSince;
      var present: set<Ip> := {};
      var todo := clients.Keys;
      while todo != {}
        invariant todo <= clients.Keys == before.Keys
        invariant forall ip | ip in before ::
          clients[ip] == (if ip in todo then before[ip] else Drained(before[ip], Lookup(since, ip), now, window, count))
        invariant forall ip :: ip in present <==> ip in before && ip !in todo && before[ip].locked
        invariant forall ip ::
          Lookup(clientSince, ip) ==
          (if ip in present then Watch(Lookup(since, ip), true, now, window) else Lookup(since, ip))
      {
        var ip :| ip in todo;
        todo := todo - {ip};
        if clients[ip].locked {
          present := present + {ip};
          ResetClientIfStuck(ip, now);
        }
      }
      DropAbsent(present);
      SameLookups(clientSince, WatchedClients(before, since, now, window));
    }

    /** Forget the clients that recovered or aged out. */
    method DropAbsent(present: set<Ip>)
      modifies this`clientSince
      ensures forall ip :: Lookup(clientSince, ip) == if ip in present then Lookup(old(clientSince), ip) else None
    {
      clientSince := map ip | ip in clientSince && ip in present :: clientSince[ip];
    }

    method DrainTick(now: Time)
      modifies this
      ensures Abstract() == Apply(old(Abstract()), Tick(now), window)
    {
      ghost var s := Abstract();
      globalSince := ResetGlobalIfStuck(globalSince, now);
      ResetStuckClients(now);
      count := count + 1;
    }
  }

  // ---- what the drain knows, in terms of what it observed ----

  /** What a tick sees of one limiter; one that is not there is not locked. */
  datatype Obs = Obs(now: Time, locked: bool)

  function Watched(obs: seq<Obs>, window: nat): Option<Time> {
    if obs == [] then None
    else
      var last := obs[|obs| - 1];
      Watch(Watched(obs[..|obs| - 1], window), last.locked, last.now, window)
  }

  /** Tick j replaces the limiter. */
  predicate SwapAt(obs: seq<Obs>, j: nat, window: nat)
    requires j < |obs|
  {
    Swaps(Watched(obs[..j], window), obs[j].locked, obs[j].now, window)
  }

  /** k is the first tick of the locked run still unbroken at the end: locked ever since, and not replaced since. */
  ghost predicate RunStart(obs: seq<Obs>, k: nat, window: nat) {
    && k < |obs|
    && (forall j: nat | k <= j < |obs| :: obs[j].locked && !SwapAt(obs, j, window))
    && (k > 0 ==> !obs[k - 1].locked || SwapAt(obs, k - 1, window))
  }

  lemma RunStartPrefix(obs: seq<Obs>, k: nat, window: nat)
    requires obs != []
    ensures k < |obs| - 1 ==>
              (RunStart(obs, k, window) <==>
               RunStart(obs[..|obs| - 1], k, window) && obs[|obs| - 1].locked && !SwapAt(obs, |obs| - 1, window))
  {
    var front := obs[..|obs| - 1];
    assert forall j: nat | j < |front| :: front[j] == obs[j] && front[..j] == obs[..j];
  }

  lemma LastSwap(obs: seq<Obs>, window: nat)
    requires obs != []
    ensures var front, n := obs[..|obs| - 1], |obs| - 1;
            n > 0 ==> (front[n - 1].locked && !SwapAt(front, n - 1, window) <==>
                       obs[n - 1].locked && !SwapAt(obs, n - 1, window))
  {
    var front, n := obs[..|obs| - 1], |obs| - 1;
    if n > 0 {
      assert front[..n - 1] == obs[..n - 1] && front[n - 1] == obs[n - 1];
    }
  }

  lemma {:induction false} SinceIsRunStartOf(obs: seq<Obs>, window: nat, k: nat)
    requires RunStart(obs, k, window)
    ensures Watched(obs, window) == Some(obs[k].now)
  {
    var front, n := obs[..|obs| - 1], |obs| - 1;
    assert obs[n].locked && !SwapAt(obs, n, window);
    RunStartPrefix(obs, k, window);
    LastSwap(obs, window);
    if k < n {
      SinceIsRunStartOf(front, window, k);
    } else {
      WatchedExactly(front, window);
    }
  }

  lemma WatchedExactly(obs: seq<Obs>, window: nat)
    ensures Watched(obs, window).Some? <==>
            obs != [] && obs[|obs| - 1].locked && !SwapAt(obs, |obs| - 1, window)
  {
  }

  lemma {:induction false} SomeRunStart(obs: seq<Obs>, window: nat) returns (k: nat)
    requires Watched(obs, window).Some?
    ensures RunStart(obs, k, window)
  {
    var front, n := obs[..|obs| - 1], |obs| - 1;
    WatchedExactly(obs, window);
    WatchedExactly(front, window);
    LastSwap(obs, window);
    if Watched(front, window).Some? {
      k := SomeRunStart(front, window);
      RunStartPrefix(obs, k, window);
    } else {
      k := n;
    }
  }

  /**
   The time remembered for a limiter is that of the first tick of its current unbroken locked run
   since it was last replaced, and is remembered exactly when the last tick saw it locked and left it.
   */
  lemma SinceIsRunStart(obs: seq<Obs>, window: nat)
    ensures Watched(obs, window).Some? <==>
            obs != [] && obs[|obs| - 1].locked && !SwapAt(obs, |obs| - 1, window)
    ensures Watched(obs, window).Some? <==> exists k: nat :: RunStart(obs, k, window)
    ensures forall k: nat :: RunStart(obs, k, window) ==> Watched(obs, window) == Some(obs[k].now)
  {
    WatchedExactly(obs, window);
    forall k: nat | RunStart(obs, k, window)
      ensures Watched(obs, window) == Some(obs[k].now)
    {
      SinceIsRunStartOf(obs, window, k);
    }
    if Watched(obs, window).Some? {
      var k := SomeRunStart(obs, window);
    }
  }

  /** Exactly when a tick replaces a limiter: it is locked, and its unbroken locked run began a window ago or more. */
  lemma SwapsExactly(obs: seq<Obs>, j: nat, window: nat)
    requires j < |obs|
    ensures SwapAt(obs, j, window) <==>
            obs[j].locked && exists k: nat :: RunStart(obs[..j], k, window) && obs[j].now - obs[k].now >= window
  {
    SinceIsRunStart(obs[..j], window);
    if Watched(obs[..j], window).Some? {
      var k: nat :| RunStart(obs[..j], k, window);
      assert obs[..j][k] == obs[k];
    }
  }

  ghost predicate Nondecreasing(obs: seq<Obs>) {
    forall i, j | 0 <= i <= j < |obs| :: obs[i].now <= obs[j].now
  }

  /** A limiter seen locked at every tick from tick i on and not replaced by any has been so for less than a window. */
  lemma {:induction false} StuckLessThanWindow(obs: seq<Obs>, i: nat, window: nat)
    requires window > 0 && Nondecreasing(obs) && i < |obs|
    requires forall j: nat | i <= j < |obs| :: obs[j].locked && !SwapAt(obs, j, window)
    ensures Watched(obs, window).Some? && Watched(obs, window).value <= obs[i].now
    ensures obs[|obs| - 1].now - obs[i].now < window
  {
    var n := |obs| - 1;
    var front := obs[..n];
    assert !SwapAt(obs, n, window) && obs[n].locked;
    if i < n {
      assert forall j: nat | j < n :: front[j] == obs[j] && front[..j] == obs[..j];
      StuckLessThanWindow(front, i, window);
    } else {
      SinceIsRunStart(front, window);
      if Watched(front, window).Some? {
        var k: nat :| RunStart(front, k, window);
        assert front[k] == obs[k];
      }
    }
  }

  // ---- each limiter is watched by that rule ----

  /** The global limiter, or that of a client. */
  datatype Which = Global | Client(ip: Ip)

  function LimiterOf(s: State, w: Which): Option<Limiter> {
    match w case Global => Some(s.global) case Client(ip) => Lookup(s.clients, ip)
  }

  function SinceOf(s: State, w: Which): Option<Time> {
    match w case Global => s.globalSince case Client(ip) => Lookup(s.clientSince, ip)
  }

  predicate LockedIn(s: State, w: Which) {
    LimiterOf(s, w).Some? && LimiterOf(s, w).value.locked
  }

  function Observed(history: seq<Event>, w: Which, window: nat): seq<Obs> {
    if history == [] then []
    else
      var front, e := history[..|history| - 1], history[|history| - 1];
      Observed(front, w, window) + if e.Tick? then [Obs(e.now, LockedIn(After(front, window), w))] else []
  }

  /** The limiter made by event `born` is the one in place. */
  predicate Holds(s: State, w: Which, born: nat) {
    LimiterOf(s, w).Some? && LimiterOf(s, w).value.born == born
  }

  /**
   What an event does to one limiter: only ticks replace it, and only a locked one; requests keep it
   in place, and unchanged if it is locked; only its own eviction removes it.
   */
  lemma StepOf(s: State, e: Event, w: Which, window: nat)
    ensures var t := Apply(s, e, window);
            && SinceOf(t, w) == (if e.Tick? then Watch(SinceOf(s, w), LockedIn(s, w), e.now, window) else SinceOf(s, w))
            && (e.Tick? && Swaps(SinceOf(s, w), LockedIn(s, w), e.now, window) ==>
                  LimiterOf(t, w) == Some(Limiter(s.count, false)))
            && (e.Tick? && !Swaps(SinceOf(s, w), LockedIn(s, w), e.now, window) ==> LimiterOf(t, w) == LimiterOf(s, w))
            && (LockedIn(s, w) && e.Served? ==> LimiterOf(t, w) == LimiterOf(s, w))
            && (e.Served? && LimiterOf(s, w).Some? ==> Holds(t, w, LimiterOf(s, w).value.born))
            && (e.Evicted? ==> LimiterOf(t, w) == LimiterOf(s, w) || e == Evicted(w.ip))
            && t.count == s.count + 1
  {
  }

  /** Every limiter is watched by the one-limiter rule, fed with what the ticks saw of it. */
  lemma {:induction false} DrainWatches(history: seq<Event>, w: Which, window: nat)
    ensures SinceOf(After(history, window), w) == Watched(Observed(history, w, window), window)
  {
    if history != [] {
      var front, e := history[..|history| - 1], history[|history| - 1];
      DrainWatches(front, w, window);
      StepOf(After(front, window), e, w, window);
      var obs := Observed(front, w, window);
      if e.Tick? {
        var o := Obs(e.now, LockedIn(After(front, window), w));
        assert (obs + [o])[..|obs|] == obs;
      } else {
        assert obs + [] == obs;
      }
    }
  }

  // ---- how a limiter gets locked ----

  /** A request that is served: its client, and off the control plane the global limiter, is unlocked. */
  predicate Admits(s: State, e: Event) {
    e.Served? && !LockedIn(s, Client(e.ip)) && (e.control || !s.global.locked)
  }

  /** Served, the request spends on w and thereby exhausts its budget. */
  predicate Exhausts(s: State, e: Event, w: Which) {
    Admits(s, e) && match w case Global => !e.control && e.globalLocks case Client(ip) => e.ip == ip && e.clientLocks
  }

  /** Spending locks a limiter exactly when it exhausts its budget; nothing else locks one. */
  lemma SpendLocks(s: State, e: Event, w: Which, window: nat)
    ensures var t := Apply(s, e, window);
            && (Exhausts(s, e, w) ==> LockedIn(t, w))
            && (LockedIn(t, w) ==> Exhausts(s, e, w) || (LockedIn(s, w) && LimiterOf(t, w) == LimiterOf(s, w)))
            && (e.Served? && !Admits(s, e) && LimiterOf(s, w).Some? ==> LimiterOf(t, w) == LimiterOf(s, w))
  {
  }

  /** A request exhausted w's budget at event i, and the limiter has stood as it was left ever since. */
  ghost predicate LockedSince(history: seq<Event>, i: nat, w: Which, window: nat) {
    && i < |history| && Exhausts(After(history[..i], window), history[i], w)
    && LimiterOf(After(history, window), w) == LimiterOf(After(history[..i + 1], window), w)
  }

  /** In every history a locked limiter was locked by a request that exhausted its budget. */
  lemma {:induction false} LockedBySpending(history: seq<Event>, w: Which, window: nat) returns (i: nat)
    requires LockedIn(After(history, window), w)
    ensures LockedSince(history, i, w, window)
  {
    var front, e := history[..|history| - 1], history[|history| - 1];
    SpendLocks(After(front, window), e, w, window);
    if Exhausts(After(front, window), e, w) {
      i := |front|;
      assert history[..i] == front && history[..i + 1] == history;
    } else {
      i := LockedBySpending(front, w, window);
      assert front[..i] == history[..i] && front[..i + 1] == history[..i + 1];
    }
  }

  // ---- recovery ----

  lemma BornStep(s: State, e: Event, w: Which, window: nat)
    ensures var t := Apply(s, e, window);
            LimiterOf(t, w).Some? ==> LimiterOf(t, w).value.born == s.count || Holds(s, w, LimiterOf(t, w).value.born)
  {
  }

  lemma {:induction false} BornBefore(history: seq<Event>, w: Which, window: nat)
    ensures After(history, window).count == |history| + 1
    ensures LimiterOf(After(history, window), w).Some? ==> LimiterOf(After(history, window), w).value.born <= |history|
  {
    if history != [] {
      var front := history[..|history| - 1];
      BornBefore(front, w, window);
      BornStep(After(front, window), history[|history| - 1], w, window);
    }
  }

  lemma {:induction false} ObservedPrefix(history: seq<Event>, i: nat, w: Which, window: nat)
    requires i <= |history|
    ensures Observed(history[..i], w, window) <= Observed(history, w, window)
  {
    if i == |history| {
      assert history[..i] == history;
    } else {
      var front := history[..|history| - 1];
      ObservedPrefix(front, i, w, window);
      assert front[..i] == history[..i];
    }
  }

  /** A limiter locked after event i that was neither replaced nor evicted: untouched, and seen locked by every tick. */
  ghost predicate StillLatched(history: seq<Event>, i: nat, w: Which, window: nat)
    requires i <= |history|
  {
    var obs := Observed(history, w, window);
    && LimiterOf(After(history, window), w) == LimiterOf(After(history[..i], window), w)
    && forall j: nat | |Observed(history[..i], w, window)| <= j < |obs| :: obs[j].locked && !SwapAt(obs, j, window)
  }

  lemma {:induction false} Latched(history: seq<Event>, i: nat, w: Which, window: nat)
    requires i <= |history| && LockedIn(After(history[..i], window), w)
    ensures var lim := LimiterOf(After(history, window), w);
            lim.None? || lim.value.born > i || StillLatched(history, i, w, window)
  {
    if i == |history| {
      assert history[..i] == history;
    } else {
      var front, e := history[..|history| - 1], history[|history| - 1];
      assert front[..i] == history[..i];
      Latched(front, i, w, window);
      BornBefore(front, w, window);
      BornStep(After(front, window), e, w, window);
      if StillLatched(front, i, w, window) {
        LatchedOn(history, i, w, window);
      }
    }
  }

  lemma LatchedOn(history: seq<Event>, i: nat, w: Which, window: nat)
    requires i < |history| && LockedIn(After(history[..i], window), w)
    requires history[..|history| - 1][..i] == history[..i] && StillLatched(history[..|history| - 1], i, w, window)
    ensures var lim := LimiterOf(After(history, window), w);
            lim.None? || lim.value.born > i || StillLatched(history, i, w, window)
  {
    var front, e := history[..|history| - 1], history[|history| - 1];
    BornBefore(front, w, window);
    BornStep(After(front, window), e, w, window);
    StepOf(After(front, window), e, w, window);
    DrainWatches(front, w, window);
    var obs, all := Observed(front, w, window), Observed(history, w, window);
    assert obs == all[..|obs|];
    assert forall j: nat | j < |obs| :: obs[..j] == all[..j];
  }

  /**
   A locked limiter, global or a client's, is gone by the first tick that comes a window or more
   after the first tick to see it locked, whatever requests, evictions and other ticks came between.
   */
  lemma RecoversInAWindow(history: seq<Event>, i: nat, w: Which, window: nat)
    requires window > 0 && i <= |history| && LockedIn(After(history[..i], window), w)
    requires var obs, first := Observed(history, w, window), |Observed(history[..i], w, window)|;
             Nondecreasing(obs) && first < |obs| && obs[|obs| - 1].now - obs[first].now >= window
    ensures !Holds(After(history, window), w, LimiterOf(After(history[..i], window), w).value.born)
  {
    Latched(history, i, w, window);
    BornBefore(history[..i], w, window);
    if StillLatched(history, i, w, window) {
      StuckLessThanWindow(Observed(history, w, window), |Observed(history[..i], w, window)|, window);
    }
  }

  /** The prefix of a history ending with its m-th tick. */
  lemma {:induction false} ThroughTick(history: seq<Event>, m: nat, w: Which, window: nat) returns (p: nat)
    requires m < |Observed(history, w, window)|
    ensures 0 < p <= |history| && history[p - 1].Tick?
    ensures Observed(history[..p], w, window) == Observed(history, w, window)[..m + 1]
    ensures history[p - 1].now == Observed(history, w, window)[m].now
  {
    var front := history[..|history| - 1];
    if m < |Observed(front, w, window)| {
      p := ThroughTick(front, m, w, window);
      assert front[..p] == history[..p];
    } else {
      p := |history|;
      assert history[..p] == history;
    }
  }

  lemma ThroughTickIsLater(history: seq<Event>, i: nat, m: nat, p: nat, w: Which, window: nat)
    requires i <= |history| && p <= |history|
    requires |Observed(history[..i], w, window)| <= m < |Observed(history, w, window)|
    requires Observed(history[..p], w, window) == Observed(history, w, window)[..m + 1]
    ensures i < p
  {
    if p <= i {
      assert history[..i][..p] == history[..p];
      ObservedPrefix(history[..i], p, w, window);
    }
  }

  /** Among times at most gap apart, the first one a window after the start comes less than a gap later. */
  lemma {:induction false} FirstPast(obs: seq<Obs>, first: nat, window: nat, gap: nat) returns (m: nat)
    requires window > 0 && first < |obs|
    requires forall j | first < j < |obs| :: obs[j].now <= obs[j - 1].now + gap
    requires obs[|obs| - 1].now - obs[first].now >= window
    ensures first < m < |obs| && window <= obs[m].now - obs[first].now < window + gap
  {
    m := |obs| - 1;
    if obs[m - 1].now - obs[first].now >= window {
      m := FirstPast(obs[..m], first, window, gap);
    }
  }

  lemma GoneAtTick(history: seq<Event>, i: nat, m: nat, p: nat, w: Which, window: nat)
    requires window > 0 && i <= p <= |history| && LockedIn(After(history[..i], window), w)
    requires var obs, first := Observed(history, w, window), |Observed(history[..i], w, window)|;
             && Nondecreasing(obs) && first <= m < |obs| && obs[m].now - obs[first].now >= window
             && Observed(history[..p], w, window) == obs[..m + 1]
    ensures !Holds(After(history[..p], window), w, LimiterOf(After(history[..i], window), w).value.born)
  {
    assert history[..p][..i] == history[..i];
    RecoversInAWindow(history[..p], i, w, window);
  }

  /**
   With ticks at most a gap apart, a limiter locked at time T, before the next tick, is gone by a
   tick less than a window and two gaps later.
   */
  lemma RecoversInTwoGaps(history: seq<Event>, i: nat, w: Which, window: nat, gap: nat, T: Time)
    requires window > 0 && i <= |history| && LockedIn(After(history[..i], window), w)
    requires var obs, first := Observed(history, w, window), |Observed(history[..i], w, window)|;
             && Nondecreasing(obs)
             && first < |obs| && obs[first].now <= T + gap
             && (forall j | first < j < |obs| :: obs[j].now <= obs[j - 1].now + gap)
             && obs[|obs| - 1].now >= T + gap + window
    ensures exists p | i < p <= |history| && history[p - 1].Tick? && history[p - 1].now < T + window + 2 * gap ::
              !Holds(After(history[..p], window), w, LimiterOf(After(history[..i], window), w).value.born)
  {
    var obs, first := Observed(history, w, window), |Observed(history[..i], w, window)|;
    var m := FirstPast(obs, first, window, gap);
    var p := ThroughTick(history, m, w, window);
    ThroughTickIsLater(history, i, m, p, w, window);
    GoneAtTick(history, i, m, p, w, window);
    assert !Holds(After(history[..p], window), w, LimiterOf(After(history[..i], window), w).value.born);
  }
}
