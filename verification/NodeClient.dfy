/**
 The member request engine as the object the gateway keeps per network: the good
 list, the owner cache and the throttle cooldown, and the calls that update them.
 */
module NodeClients {
  import opened Basics
  import opened Discovery
  import opened Text
  import HR = HedgedRequest

  type User = string

  const NO_CANDIDATES := "no Warpnet member nodes discovered yet"
  const ROUTE_GET_USER := "/public/get/user/0.0.0"

  datatype Response = Ok(peer: Peer, body: HR.Body) | Err(reason: string)

  /** What wakes the select of tryMembers. */
  datatype Wake = Done | Reply(i: nat, outcome: HR.Outcome) | Tick

  predicate IsReadRoute(route: Route) {
    Contains(route, "/get/")
  }

  /** The (route, peer) pairs an ended call has marked as cooling down. */
  function Limited(route: Route, peers: seq<Peer>, s: HR.State): set<(Route, Peer)> {
    set i: nat | i < |peers| && i < |s.attempts| && s.attempts[i].Consumed? &&
                 s.attempts[i].outcome.Answered? && s.attempts[i].outcome.body.rateLimited :: (route, peers[i])
  }

  lemma CandidatesAreEligible(good: seq<Peer>, table: seq<Peer>, self: Peer, relays: set<Peer>, cooling: set<Peer>)
    ensures forall p | p in Candidates(good, table, self, relays, cooling) ::
              p in good + table && Eligible(p, self, relays)
  {
    FirstsAre(good + table, self, relays);
    var all := Take(Firsts(good + table, self, relays), MAX_MEMBER_CANDIDATES);
    DemotedKeepsEveryone(all, cooling);
    forall p | p in Demoted(all, cooling)
      ensures p in good + table && Eligible(p, self, relays)
    {
      assert p in multiset(Demoted(all, cooling));
      assert p in all;
    }
  }

  /** The candidates for a route: the first distinct eligible peers, those cooling down last. */
  function Candidates(good: seq<Peer>, table: seq<Peer>, self: Peer, relays: set<Peer>, cooling: set<Peer>): seq<Peer> {
    Demoted(Take(Firsts(good + table, self, relays), MAX_MEMBER_CANDIDATES), cooling)
  }

  /** What a call returns when its run has ended. */
  predicate Ends(r: Response, peers: seq<Peer>, final: HR.State) {
    final.verdict.Some? &&
    match final.verdict.value
    case Success(i, b) => i < |peers| && r == Ok(peers[i], b)
    case TimedOut => r == Err("context deadline exceeded")
    case FailedOnAll(reason) => r == Err(reason)
  }

  /** Candidates are distinct, at most 64, and eligible; while they fit, they are all the eligible peers known. */
  lemma CandidatesAre(good: seq<Peer>, table: seq<Peer>, self: Peer, relays: set<Peer>, cooling: set<Peer>)
    ensures var out, all := Candidates(good, table, self, relays, cooling), Firsts(good + table, self, relays);
            && Distinct(out) && |out| <= MAX_MEMBER_CANDIDATES
            && (forall p | p in out :: p in good + table && p != "" && p != self && p !in relays)
            && (|all| <= MAX_MEMBER_CANDIDATES ==>
                  forall p | p in good + table && p != "" && p != self && p !in relays :: p in out)
  {
    CandidatesAreEligible(good, table, self, relays, cooling);
    FirstsAre(good + table, self, relays);
    var all := Take(Firsts(good + table, self, relays), MAX_MEMBER_CANDIDATES);
    DemotedKeepsEveryone(all, cooling);
    SameElements(Demoted(all, cooling), all);
  }

  lemma SameElements(a: seq<Peer>, b: seq<Peer>)
    requires multiset(a) == multiset(b) && Distinct(b)
    ensures Distinct(a) && |a| == |b| && forall p | p in b :: p in a
  {
    assert |multiset(a)| == |a| && |multiset(b)| == |b|;
    forall p | p in b
      ensures p in a
    {
      assert p in multiset(b);
    }
    forall i, j | 0 <= i < j < |a|
      ensures a[i] != a[j]
    {
      if a[i] == a[j] {
        assert a == a[..i] + [a[i]] + a[i + 1..j] + [a[j]] + a[j + 1..];
        assert multiset(a)[a[i]] >= 2;
        DistinctOnce(b, a[i]);
      }
    }
  }

  lemma {:induction false} DistinctOnce(b: seq<Peer>, p: Peer)
    requires Distinct(b)
    ensures multiset(b)[p] <= 1
  {
    if b != [] {
      var front, last := b[..|b| - 1], b[|b| - 1];
      assert b == front + [last];
      DistinctOnce(front, p);
      assert last !in front;
      assert last !in multiset(front);
    }
  }

  /** Whom a broadcast asks: the candidates known or, without any, those a refresh finds. */
  function Pool(good: seq<Peer>, table: seq<Peer>, refreshed: seq<Peer>, self: Peer, relays: set<Peer>,
                cooling: set<Peer>)
    : seq<Peer>
  {
    var known := Candidates(good, table, self, relays, cooling);
    if known != [] then known else Candidates(good, refreshed, self, relays, cooling)
  }

  /** What a broadcast amounted to: the candidates asked and the run over them. */
  datatype Call = Call(peers: seq<Peer>, steps: seq<HR.Step>, final: HR.State)

  function NoCall(): Call {
    Call([], [], HR.Init(HR.Config(0, true)))
  }

  /** r is what the run of the call ended with; without candidates there is no run. */
  predicate Traced(route: Route, r: Response, call: Call) {
    if call.peers == [] then r == Err(NO_CANDIDATES)
    else
      && HR.After(HR.Config(|call.peers|, IsReadRoute(route)), call.steps) == Some(call.final)
      && Ends(r, call.peers, call.final)
  }

  /** The cooldown entries a broadcast leaves behind. */
  function Marks(route: Route, call: Call): set<(Route, Peer)> {
    if call.peers == [] then {} else Limited(route, call.peers, call.final)
  }

  /** The peers cooling down on a route. */
  function Cool(throttled: set<(Route, Peer)>, route: Route): set<Peer> {
    set e | e in throttled && e.0 == route :: e.1
  }

  /** The good list once an answer was used. */
  function GoodWith(good: seq<Peer>, r: Response): seq<Peer> {
    if r.Ok? then MoveToFront(good, r.peer) else good
  }

  /** The node a profile names; no profile names none. */
  function Named(profile: Response, nodeOf: HR.Body -> Option<Peer>): Option<Peer> {
    if profile.Ok? then nodeOf(profile.body) else None
  }

  /** The cooldown entry one reply causes. */
  function MarkedBy(route: Route, p: Peer, o: HR.Outcome): set<(Route, Peer)> {
    if o.Answered? && o.body.rateLimited then {(route, p)} else {}
  }

  function InFlight(s: HR.State): set<nat> {
    set i: nat | i < |s.attempts| && s.attempts[i].Running?
  }

  /** The loop's own variables mirror the state of the run. */
  ghost predicate Tracks(s: HR.State, next: nat, running: set<nat>, inFlight: int, lastErr: Option<string>) {
    && s.next == next && s.lastErr == lastErr && s.replies == []
    && s.inFlight == inFlight && running == InFlight(s)
    && s.verdict == if inFlight > 0 then None
                    else Some(HR.FailedOnAll(if lastErr.Some? then lastErr.value else HR.NO_MEMBERS))
  }

  lemma LimitedTick(route: Route, peers: seq<Peer>, s: HR.State, next: nat)
    requires |s.attempts| == |peers| && s.next == next <= |peers|
    requires next < |peers| ==> s.attempts[next].Idle?
    ensures Limited(route, peers, HR.LaunchNext(s)) == Limited(route, peers, s)
  {
    var t := HR.LaunchNext(s);
    assert forall i: nat | i < |peers| && i != next :: t.attempts[i] == s.attempts[i];
  }

  /** Consuming one reply marks exactly its peer, and only when it is a rate limit. */
  lemma LimitedReply(cfg: HR.Config, route: Route, peers: seq<Peer>, s: HR.State, next: nat, i: nat, o: HR.Outcome)
    requires cfg.n == |s.attempts| == |peers| && s.next == next <= |peers| && i < next
    requires s.attempts[i].Running? && s.replies == [] && s.verdict.None?
    requires next < |peers| ==> s.attempts[next].Idle?
    ensures var u := HR.Apply(cfg, s, HR.Send(i, o));
            Limited(route, peers, HR.Apply(cfg, u, HR.Receive)) ==
            Limited(route, peers, s) + MarkedBy(route, peers[i], o)
  {
    var u := HR.Apply(cfg, s, HR.Send(i, o));
    var t := HR.Apply(cfg, u, HR.Receive);
    assert t.attempts[i] == HR.Consumed(o);
    assert forall j: nat | j < |peers| && j != i && j != next :: t.attempts[j] == s.attempts[j];
    assert next < |peers| ==> !t.attempts[next].Consumed?;
  }

  /** One more step of a run. */
  ghost method Advance(cfg: HR.Config, s: HR.State, steps: seq<HR.Step>, e: HR.Step)
    returns (t: HR.State, steps': seq<HR.Step>)
    requires HR.After(cfg, steps) == Some(s) && HR.Enabled(cfg, s, e)
    ensures t == HR.Apply(cfg, s, e)
    ensures HR.After(cfg, steps') == Some(t)
  {
    t := HR.Apply(cfg, s, e);
    steps' := steps + [e];
  }

  lemma LaunchTracks(s: HR.State, n: nat, next: nat, running: set<nat>, inFlight: int, lastErr: Option<string>)
    requires |s.attempts| == n && s.next == next <= n && s.lastErr == lastErr && s.replies == []
    requires s.inFlight == inFlight >= 0 && s.verdict.None? && running == InFlight(s)
    ensures next < n ==> Tracks(HR.LoopGuard(HR.LaunchNext(s)), next + 1, running + {next}, inFlight + 1, lastErr)
    ensures next == n ==> Tracks(HR.LoopGuard(HR.LaunchNext(s)), next, running, inFlight, lastErr)
  {
    if next < n {
      var t := HR.LaunchNext(s);
      assert forall i: nat | i < n && i != next :: t.attempts[i] == s.attempts[i];
      assert InFlight(t) == InFlight(s) + {next};
    }
  }

  /** What a call's loop relies on: candidates are launched in order. */
  lemma LaunchedSoFar(cfg: HR.Config, s: HR.State, steps: seq<HR.Step>)
    requires HR.After(cfg, steps) == Some(s)
    ensures |s.attempts| == cfg.n && s.next <= cfg.n
    ensures forall i: nat | i < cfg.n :: s.attempts[i].Idle? <==> s.next <= i
  {
    HR.AfterInv(cfg, steps);
  }

  /** The state after a reply that is no use, before the next candidate is launched. */
  function UselessReply(s: HR.State, i: nat, o: HR.Outcome): HR.State
    requires i < |s.attempts|
  {
    s.(attempts := s.attempts[i := HR.Consumed(o)], log := s.log + [i], inFlight := s.inFlight - 1,
       lastErr := Some(o.Reason()))
  }

  lemma ReplyTaken(cfg: HR.Config, s: HR.State, i: nat, o: HR.Outcome)
    requires cfg.n == |s.attempts| && i < |s.attempts| && s.attempts[i].Running? && s.replies == [] && s.verdict.None?
    ensures HR.Enabled(cfg, s, HR.Send(i, o)) && HR.Enabled(cfg, HR.Apply(cfg, s, HR.Send(i, o)), HR.Receive)
    ensures var t := HR.Apply(cfg, HR.Apply(cfg, s, HR.Send(i, o)), HR.Receive);
            if o.Usable() then t.verdict == Some(HR.Success(i, o.body))
            else t == HR.LoopGuard(HR.LaunchNext(UselessReply(s, i, o)))
    ensures InFlight(UselessReply(s, i, o)) == InFlight(s) - {i}
  {
    var u := HR.Apply(cfg, s, HR.Send(i, o));
    assert HR.Taken(u).attempts == UselessReply(s, i, o).attempts;
    assert HR.Taken(u).replies == [];
  }

  ghost method OnTick(cfg: HR.Config, route: Route, peers: seq<Peer>, s: HR.State, steps: seq<HR.Step>,
                      next: nat, running: set<nat>, inFlight: int, lastErr: Option<string>)
    returns (t: HR.State, steps': seq<HR.Step>)
    requires HR.After(cfg, steps) == Some(s) && cfg.n == |peers| && cfg.read
    requires Tracks(s, next, running, inFlight, lastErr) && inFlight > 0
    ensures HR.After(cfg, steps') == Some(t)
    ensures next <= |peers|
    ensures next < |peers| ==> Tracks(t, next + 1, running + {next}, inFlight + 1, lastErr)
    ensures next == |peers| ==> Tracks(t, next, running, inFlight, lastErr)
    ensures Limited(route, peers, t) == Limited(route, peers, s)
  {
    LaunchedSoFar(cfg, s, steps);
    t, steps' := Advance(cfg, s, steps, HR.HedgeTick);
    LimitedTick(route, peers, s, next);
    LaunchTracks(s, |peers|, next, running, inFlight, lastErr);
  }

  ghost method OnReply(cfg: HR.Config, route: Route, peers: seq<Peer>, s: HR.State, steps: seq<HR.Step>,
                       next: nat, running: set<nat>, inFlight: int, lastErr: Option<string>, i: nat, o: HR.Outcome)
    returns (t: HR.State, steps': seq<HR.Step>)
    requires HR.After(cfg, steps) == Some(s) && cfg.n == |peers|
    requires Tracks(s, next, running, inFlight, lastErr) && inFlight > 0 && i in running
    ensures HR.After(cfg, steps') == Some(t)
    ensures i < |peers| && next <= |peers|
    ensures o.Usable() ==> t.verdict == Some(HR.Success(i, o.body))
    ensures !o.Usable() && next < |peers| ==>
              Tracks(t, next + 1, running - {i} + {next}, inFlight, Some(o.Reason()))
    ensures !o.Usable() && next == |peers| ==>
              Tracks(t, next, running - {i}, inFlight - 1, Some(o.Reason()))
    ensures Limited(route, peers, t) ==
            Limited(route, peers, s) + MarkedBy(route, peers[i], o)
  {
    LaunchedSoFar(cfg, s, steps);
    ReplyTaken(cfg, s, i, o);
    var u, steps1 := Advance(cfg, s, steps, HR.Send(i, o));
    t, steps' := Advance(cfg, u, steps1, HR.Receive);
    LimitedReply(cfg, route, peers, s, next, i, o);
    if !o.Usable() {
      LaunchTracks(UselessReply(s, i, o), |peers|, next, running - {i}, inFlight - 1, Some(o.Reason()));
    }
  }

  /** The variables of the loop after a wake that does not end the call. */
  ghost method OnWake(cfg: HR.Config, route: Route, peers: seq<Peer>, s: HR.State, steps: seq<HR.Step>,
                      next: nat, running: set<nat>, inFlight: int, lastErr: Option<string>, wake: Wake)
    returns (t: HR.State, steps': seq<HR.Step>)
    requires HR.After(cfg, steps) == Some(s) && cfg.n == |peers| && inFlight > 0
    requires Tracks(s, next, running, inFlight, lastErr)
    requires (wake.Tick? && cfg.read) || (wake.Reply? && wake.i in running)
    ensures HR.After(cfg, steps') == Some(t)
    ensures wake.Reply? ==> wake.i < |peers|
    ensures wake.Reply? && wake.outcome.Usable() ==> t.verdict == Some(HR.Success(wake.i, wake.outcome.body))
    ensures !(wake.Reply? && wake.outcome.Usable()) ==>
              var left := if wake.Reply? then running - {wake.i} else running;
              var count := if wake.Reply? then inFlight - 1 else inFlight;
              var err := if wake.Reply? then Some(wake.outcome.Reason()) else lastErr;
              if next < |peers| then Tracks(t, next + 1, left + {next}, count + 1, err)
              else Tracks(t, next, left, count, err)
    ensures Limited(route, peers, t) ==
            Limited(route, peers, s) + if wake.Reply? then MarkedBy(route, peers[wake.i], wake.outcome) else {}
  {
    if wake.Tick? {
      t, steps' := OnTick(cfg, route, peers, s, steps, next, running, inFlight, lastErr);
    } else {
      t, steps' := OnReply(cfg, route, peers, s, steps, next, running, inFlight, lastErr, wake.i, wake.outcome);
    }
  }

  /** The owner node a user-scoped request may ask. */
  function HomeOf(user: User, owner: map<User, Peer>, profile: Response, nodeOf: HR.Body -> Option<Peer>)
    : Option<Peer>
  {
    if user in owner then Some(owner[user]) else Named(profile, nodeOf)
  }

  /** The owner was asked and its answer is the result. */
  predicate Served(asked: Option<(Peer, HR.Outcome)>) {
    asked.Some? && asked.value.1.Usable()
  }

  /** The owner is asked exactly when it is known and not cooling down on the route. */
  ghost predicate AsksOwner(home: Option<Peer>, route: Route, throttled: set<(Route, Peer)>, lookup: Call,
                            asked: Option<(Peer, HR.Outcome)>) {
    && (asked.Some? <==> home.Some? && (route, home.value) !in throttled + Marks(ROUTE_GET_USER, lookup))
    && (asked.Some? ==> asked.value.0 == home.value)
  }

  /** The owner found is cached, and forgotten again if asking it failed. */
  function OwnersAfter(user: User, owner: map<User, Peer>, home: Option<Peer>, asked: Option<(Peer, HR.Outcome)>)
    : map<User, Peer>
  {
    var found := if home.Some? then owner[user := home.value] else owner;
    if asked.Some? && asked.value.1.Failed? then found - {user} else found
  }

  /** The cooldown entries after the profile read and the owner's answer. */
  function CooledBy(throttled: set<(Route, Peer)>, lookup: Call, route: Route, asked: Option<(Peer, HR.Outcome)>)
    : set<(Route, Peer)>
  {
    throttled + Marks(ROUTE_GET_USER, lookup) +
    if asked.Some? then MarkedBy(route, asked.value.0, asked.value.1) else {}
  }

  // ---- what these decide, in plain terms ----

  /** The read routes are exactly those with "/get/" somewhere in them. */
  lemma ReadRoutesExactly(route: Route)
    ensures IsReadRoute(route) <==> exists a: string, b: string :: route == a + "/get/" + b
  {
    if IsReadRoute(route) {
      var i: nat :| i <= |route| && At(route, i, "/get/");
      assert route == route[..i] + "/get/" + route[i + 5..];
    }
    if exists a: string, b: string :: route == a + "/get/" + b {
      var a: string, b: string :| route == a + "/get/" + b;
      assert route[|a|..|a| + 5] == "/get/";
      assert At(route, |a|, "/get/");
    }
  }

  /**
   At every point of every call: a route without "/get/" has at most one attempt outstanding, and one
   with it may launch another at a hedge tick while it is undecided and candidates are left.
   */
  lemma CallsRaceOnlyReads(route: Route, peers: seq<Peer>, steps: seq<HR.Step>, k: nat)
    requires HR.After(HR.Config(|peers|, IsReadRoute(route)), steps).Some? && k <= |steps|
    ensures var cfg := HR.Config(|peers|, IsReadRoute(route));
            && HR.After(cfg, steps[..k]).Some?
            && var s := HR.After(cfg, steps[..k]).value;
               if exists a: string, b: string :: route == a + "/get/" + b then
                 s.verdict.None? ==>
                   && HR.Enabled(cfg, s, HR.HedgeTick)
                   && (s.next < |peers| ==>
                         |HR.Outstanding(HR.Apply(cfg, s, HR.HedgeTick))| == |HR.Outstanding(s)| + 1)
               else |HR.Outstanding(s)| <= 1
  {
    var cfg := HR.Config(|peers|, IsReadRoute(route));
    HR.AfterPrefix(cfg, steps, k);
    HR.OnlyReadsRace(cfg, steps[..k]);
    ReadRoutesExactly(route);
  }

  lemma ProfileReadsAreHedged()
    ensures IsReadRoute(ROUTE_GET_USER)
  {
    assert ROUTE_GET_USER[7..12] == "/get/";
    assert At(ROUTE_GET_USER, 7, "/get/");
  }

  /** A broadcast marks exactly the peers whose reply it consumed and found rate limited, on its route. */
  lemma MarksExactly(route: Route, r: Response, call: Call, e: (Route, Peer))
    requires Traced(route, r, call)
    ensures e in Marks(route, call) <==>
            && e.0 == route
            && exists i: nat :: i < |call.peers| && i < |call.final.attempts| && call.peers[i] == e.1
                 && call.final.attempts[i].Consumed? && call.final.attempts[i].outcome.Answered?
                 && call.final.attempts[i].outcome.body.rateLimited && call.peers != []
  {
  }

  /** A broadcast holds peers back on its own route alone: those already marked there, and those it found limited. */
  lemma MarksCoolTheirRoute(throttled: set<(Route, Peer)>, route: Route, r: Response, call: Call, other: Route,
                            p: Peer)
    requires Traced(route, r, call)
    ensures p in Cool(throttled + Marks(route, call), other) <==>
            || (other, p) in throttled
            || (&& other == route
                && exists i: nat :: i < |call.peers| && i < |call.final.attempts| && call.peers[i] == p
                     && call.final.attempts[i].Consumed? && call.final.attempts[i].outcome.Answered?
                     && call.final.attempts[i].outcome.body.rateLimited)
  {
    MarksExactly(route, r, call, (other, p));
    if p in Cool(throttled + Marks(route, call), other) {
      assert (other, p) in throttled + Marks(route, call);
    }
  }

  /**
   Whom a broadcast asks: eligible peers known now if there are any, else those a refresh finds; nobody
   only if neither knows one.
   */
  lemma PoolExactly(good: seq<Peer>, table: seq<Peer>, refreshed: seq<Peer>, self: Peer, relays: set<Peer>,
                    cooling: set<Peer>)
    ensures var pool := Pool(good, table, refreshed, self, relays, cooling);
            var now := exists p :: p in good + table && p != "" && p != self && p !in relays;
            && (forall p | p in pool :: p in good + (if now then table else refreshed))
            && (forall p | p in pool :: p != "" && p != self && p !in relays)
            && (pool == [] <==> !now && !exists p :: p in good + refreshed && p != "" && p != self && p !in relays)
  {
    CandidatesAre(good, table, self, relays, cooling);
    CandidatesAre(good, refreshed, self, relays, cooling);
    NoneOnlyIfNone(good, table, self, relays, cooling);
    NoneOnlyIfNone(good, refreshed, self, relays, cooling);
  }

  lemma NoneOnlyIfNone(good: seq<Peer>, table: seq<Peer>, self: Peer, relays: set<Peer>, cooling: set<Peer>)
    ensures Candidates(good, table, self, relays, cooling) == [] <==>
            !exists p :: p in good + table && p != "" && p != self && p !in relays
  {
    CandidatesAre(good, table, self, relays, cooling);
    FirstsAre(good + table, self, relays);
    var all := Firsts(good + table, self, relays);
    DemotedKeepsEveryone(Take(all, MAX_MEMBER_CANDIDATES), cooling);
    SameElements(Candidates(good, table, self, relays, cooling), Take(all, MAX_MEMBER_CANDIDATES));
    if all != [] {
      assert all[0] in all;
    }
  }

  /** What the owner's answer does: used, throttled or forgotten; everyone else's entries stay. */
  lemma OwnerAnswerDoes(user: User, owner: map<User, Peer>, home: Option<Peer>, route: Route,
                        throttled: set<(Route, Peer)>, lookup: Call, asked: Option<(Peer, HR.Outcome)>)
    requires AsksOwner(home, route, throttled, lookup, asked) && asked.Some?
    ensures var owners, cooling := OwnersAfter(user, owner, home, asked), CooledBy(throttled, lookup, route, asked);
            && (asked.value.1.Failed? ==>
                  user !in owners && !Served(asked) && (route, asked.value.0) !in cooling)
            && (asked.value.1.Answered? ==> user in owners && owners[user] == asked.value.0)
            && (asked.value.1.Answered? ==>
                  (Served(asked) <==> !asked.value.1.body.rateLimited) &&
                  ((route, asked.value.0) in cooling <==> asked.value.1.body.rateLimited))
            && (forall v | v != user :: v in owners <==> v in owner)
            && (forall v | v != user && v in owner :: owners[v] == owner[v])
  {
  }

  /** Who is held back after the owner's part: those before, those its profile read found limited, a limited owner. */
  lemma CooledExactly(throttled: set<(Route, Peer)>, profile: Response, lookup: Call, route: Route,
                      asked: Option<(Peer, HR.Outcome)>, e: (Route, Peer))
    requires Traced(ROUTE_GET_USER, profile, lookup)
    ensures e in CooledBy(throttled, lookup, route, asked) <==>
            || e in throttled
            || (&& e.0 == ROUTE_GET_USER
                && exists i: nat :: i < |lookup.peers| && i < |lookup.final.attempts| && lookup.peers[i] == e.1
                     && lookup.final.attempts[i].Consumed? && lookup.final.attempts[i].outcome.Answered?
                     && lookup.final.attempts[i].outcome.body.rateLimited)
            || (&& asked.Some? && e == (route, asked.value.0)
                && asked.value.1.Answered? && asked.value.1.body.rateLimited)
  {
    MarksExactly(ROUTE_GET_USER, profile, lookup, e);
  }

  class NodeClient {
    const self: Peer
    const relays: set<Peer>
    var good: seq<Peer>
    var owner: map<User, Peer>
    var throttled: set<(Route, Peer)>

    constructor (self: Peer, relays: set<Peer>)
      ensures this.self == self && this.relays == relays
      ensures good == GoodAfter([]) && owner == map[] && throttled == {}
    {
      this.self, this.relays := self, relays;
      good, owner, throttled := [], map[], {};
    }

    method Remember(p: Peer)
      modifies this`good
      ensures good == MoveToFront(old(good), p)
    {
      var out := [p];
      for k := 0 to |good|
        invariant good == old(good)
        invariant out == [p] + Without(good[..k], p)
      {
        assert good[..k + 1] == good[..k] + [good[k]];
        WithoutConcat(good[..k], [good[k]], p);
        if good[k] != p {
          out := out + [good[k]];
        }
      }
      assert good[..|good|] == good;
      if |out| > MAX_MEMBER_CANDIDATES {
        out := out[..MAX_MEMBER_CANDIDATES];
      }
      good := out;
    }

    function CoolingOn(route: Route): set<Peer>
      reads this
    {
      Cool(throttled, route)
    }

    method DemoteThrottled(route: Route, peers: seq<Peer>) returns (out: seq<Peer>)
      ensures out == Demoted(peers, CoolingOn(route))
    {
      var cool := CoolingOn(route);
      if throttled == {} {
        FilterMembers(peers, Cooling(cool));
        FilterAll(peers, Ready(cool));
        FilterNone(peers, Cooling(cool));
        return peers;
      }
      var ready, cooling := [], [];
      for k := 0 to |peers|
        invariant ready == Filter(peers[..k], Ready(cool))
        invariant cooling == Filter(peers[..k], Cooling(cool))
      {
        assert peers[..k + 1] == peers[..k] + [peers[k]];
        FilterConcat(peers[..k], [peers[k]], Ready(cool));
        FilterConcat(peers[..k], [peers[k]], Cooling(cool));
        if (route, peers[k]) in throttled {
          cooling := cooling + [peers[k]];
        } else {
          ready := ready + [peers[k]];
        }
      }
      assert peers[..|peers|] == peers;
      out := ready + cooling;
    }

    /** table lists the DHT routing table's peers. */
    method MemberCandidates(route: Route, table: seq<Peer>) returns (out: seq<Peer>)
      ensures out == Candidates(good, table, self, relays, CoolingOn(route))
    {
      var all := good + table;
      var seen: set<Peer> := {};
      out := [];
      for k := 0 to |all|
        invariant out == Firsts(all[..k], self, relays)
        invariant seen == SetOf(out)
      {
        var p := all[k];
        assert all[..k + 1] == all[..k] + [p];
        if Eligible(p, self, relays) && p !in seen {
          seen := seen + {p};
          out := out + [p];
        }
      }
      assert all[..|all|] == all;
      if |out| > MAX_MEMBER_CANDIDATES {
        out := out[..MAX_MEMBER_CANDIDATES];
      }
      out := DemoteThrottled(route, out);
    }

    method MarkThrottled(route: Route, p: Peer)
      modifies this`throttled
      ensures throttled == old(throttled) + {(route, p)}
    {
      throttled := throttled + {(route, p)};
    }

    /** What the loop does with one reply: remember the peer, cool it down, or neither. */
    method Judge(route: Route, p: Peer, outcome: HR.Outcome) returns (usable: bool)
      modifies this`good, this`throttled
      ensures usable == outcome.Usable()
      ensures good == if usable then MoveToFront(old(good), p) else old(good)
      ensures throttled == old(throttled) + MarkedBy(route, p, outcome)
    {
      usable := outcome.Usable();
      if usable {
        Remember(p);
      } else if outcome.Answered? {
        MarkThrottled(route, p);
      }
    }

    /**
     One hedged call: every wake of the select is arbitrary among those possible, and the request
     deadline fires after at most `wakes` of them. The call is a run of the state machine.
     */
    method TryMembers(peers: seq<Peer>, route: Route, wakes: nat)
      returns (r: Response, ghost final: HR.State, ghost steps: seq<HR.Step>)
      modifies this`good, this`throttled
      ensures HR.After(HR.Config(|peers|, IsReadRoute(route)), steps) == Some(final)
      ensures Ends(r, peers, final)
      ensures good == if r.Ok? then MoveToFront(old(good), r.peer) else old(good)
      ensures throttled == old(throttled) + Limited(route, peers, final)
      ensures r.Ok? ==> r.peer in peers && !r.body.rateLimited
    {
      ghost var cfg := HR.Config(|peers|, IsReadRoute(route));
      final, steps := HR.Init(cfg), [];
      var read := IsReadRoute(route);
      var next: nat, running: set<nat>, inFlight: int, lastErr: Option<string> := 0, {}, 0, None;
      if next < |peers| {
        running, next, inFlight := {0}, 1, 1;
      }
      var left := wakes;
      while inFlight > 0
        invariant HR.After(cfg, steps) == Some(final)
        invariant Tracks(final, next, running, inFlight, lastErr)
        invariant good == old(good) && throttled == old(throttled) + Limited(route, peers, final)
        decreases left
      {
        var wake: Wake := Done;
        if left > 0 {
          wake :| wake.Done? || (wake.Tick? && read) || (wake.Reply? && wake.i in running);
          left := left - 1;
        }
        if wake.Done? {
          final, steps := Advance(cfg, final, steps, HR.Deadline);
          return Err("context deadline exceeded"), final, steps;
        }
        final, steps := OnWake(cfg, route, peers, final, steps, next, running, inFlight, lastErr, wake);
        if wake.Reply? {
          running, inFlight := running - {wake.i}, inFlight - 1;
          var usable := Judge(route, peers[wake.i], wake.outcome);
          if usable {
            return Ok(peers[wake.i], wake.outcome.body), final, steps;
          }
          lastErr := Some(wake.outcome.Reason());
        }
        // a failed candidate, or a slow one on a read: launch the next
        if next < |peers| {
          running, next, inFlight := running + {next}, next + 1, inFlight + 1;
        }
      }
      r := Err(if lastErr.Some? then lastErr.value else HR.NO_MEMBERS);
    }

    /**
     Streams a route to the member nodes. table and refreshed are the routing table before and
     after the refresh an empty candidate list triggers.
     */
    method Request(route: Route, table: seq<Peer>, refreshed: seq<Peer>, wakes: nat)
      returns (r: Response, ghost call: Call)
      modifies this`good, this`throttled
      ensures call.peers == Pool(old(good), table, refreshed, self, relays, Cool(old(throttled), route))
      ensures Traced(route, r, call)
      ensures r.Ok? ==> !r.body.rateLimited && Eligible(r.peer, self, relays)
      ensures r.Ok? ==> r.peer in old(good) + table + refreshed
      ensures good == GoodWith(old(good), r)
      ensures throttled == old(throttled) + Marks(route, call)
    {
      var all := MemberCandidates(route, table);
      CandidatesAreEligible(good, table, self, relays, CoolingOn(route));
      if all == [] {
        all := MemberCandidates(route, refreshed);
        CandidatesAreEligible(good, refreshed, self, relays, CoolingOn(route));
      }
      if all == [] {
        return Err(NO_CANDIDATES), NoCall();
      }
      ghost var final, steps;
      r, final, steps := TryMembers(all, route, wakes);
      call := Call(all, steps, final);
    }

    /** The user's home node, from the cache or from the profile any member answers with. */
    method OwnerNode(user: User, table: seq<Peer>, refreshed: seq<Peer>, wakes: nat, nodeOf: HR.Body -> Option<Peer>)
      returns (p: Option<Peer>, ghost profile: Response, ghost lookup: Call)
      modifies this
      ensures user in old(owner) ==> p == Some(old(owner)[user]) && profile.Err? && lookup == NoCall()
      ensures user !in old(owner) ==>
                && lookup.peers == Pool(old(good), table, refreshed, self, relays, Cool(old(throttled), ROUTE_GET_USER))
                && Traced(ROUTE_GET_USER, profile, lookup)
                && p == (if profile.Ok? then nodeOf(profile.body) else None)
      ensures owner == if p.Some? then old(owner)[user := p.value] else old(owner)
      ensures good == GoodWith(old(good), profile)
      ensures throttled == old(throttled) + Marks(ROUTE_GET_USER, lookup)
    {
      if user in owner {
        return Some(owner[user]), Err(""), NoCall();
      }
      var r;
      r, lookup := Request(ROUTE_GET_USER, table, refreshed, wakes);
      profile := r;
      p := Named(r, nodeOf);
      if p.Some? {
        owner := owner[user := p.value];
      }
    }

    method ForgetOwner(user: User)
      modifies this`owner
      ensures owner == old(owner) - {user}
    {
      owner := owner - {user};
    }

    /** What the owner node's answer does; usable says it is the result. */
    method JudgeOwner(user: User, route: Route, home: Peer, outcome: HR.Outcome) returns (usable: bool)
      modifies this
      ensures usable == outcome.Usable()
      ensures good == if usable then MoveToFront(old(good), home) else old(good)
      ensures throttled == old(throttled) + MarkedBy(route, home, outcome)
      ensures owner == if outcome.Failed? then old(owner) - {user} else old(owner)
    {
      usable := outcome.Usable();
      if usable {
        Remember(home);
      } else if outcome.Answered? {
        MarkThrottled(route, home);
      } else {
        ForgetOwner(user);
      }
    }

    /**
     The owner's part of a user-scoped request: who owns the user, and what that node answered, if it
     was asked. profile and lookup are the profile read that found the owner.
     */
    method AskOwner(user: User, route: Route, table: seq<Peer>, refreshed: seq<Peer>, wakes: nat,
                    nodeOf: HR.Body -> Option<Peer>)
      returns (asked: Option<(Peer, HR.Outcome)>, ghost profile: Response, ghost lookup: Call)
      modifies this
      ensures user in old(owner) ==> profile.Err? && lookup == NoCall()
      ensures user !in old(owner) ==>
                && lookup.peers == Pool(old(good), table, refreshed, self, relays, Cool(old(throttled), ROUTE_GET_USER))
                && Traced(ROUTE_GET_USER, profile, lookup)
      ensures AsksOwner(HomeOf(user, old(owner), profile, nodeOf), route, old(throttled), lookup, asked)
      ensures owner == OwnersAfter(user, old(owner), HomeOf(user, old(owner), profile, nodeOf), asked)
      ensures good == if Served(asked) then MoveToFront(GoodWith(old(good), profile), asked.value.0)
                      else GoodWith(old(good), profile)
      ensures throttled == CooledBy(old(throttled), lookup, route, asked)
    {
      asked := None;
      var home;
      home, profile, lookup := OwnerNode(user, table, refreshed, wakes, nodeOf);
      if home.Some? && (route, home.value) !in throttled {
        var outcome: HR.Outcome := *;
        asked := Some((home.value, outcome));
        var _ := JudgeOwner(user, route, home.value, outcome);
      }
    }

    /**
     Streams a user-scoped route to the node that owns the user, and broadcasts when that node is
     unknown, cooling down, rate limiting or failing. call is the broadcast, if any.
     */
    method RequestUser(user: User, route: Route, table: seq<Peer>, refreshed: seq<Peer>, wakes: nat,
                       nodeOf: HR.Body -> Option<Peer>)
      returns (r: Response, asked: Option<(Peer, HR.Outcome)>,
               ghost profile: Response, ghost lookup: Call, ghost call: Call)
      modifies this
      ensures r.Ok? ==> !r.body.rateLimited && good != [] && good[0] == r.peer
      // the profile read, only without a cached owner
      ensures user in old(owner) ==> profile.Err? && lookup == NoCall()
      ensures user !in old(owner) ==>
                && lookup.peers == Pool(old(good), table, refreshed, self, relays, Cool(old(throttled), ROUTE_GET_USER))
                && Traced(ROUTE_GET_USER, profile, lookup)
      // the owner is asked exactly when known and not cooling down
      ensures AsksOwner(HomeOf(user, old(owner), profile, nodeOf), route, old(throttled), lookup, asked)
      ensures owner == OwnersAfter(user, old(owner), HomeOf(user, old(owner), profile, nodeOf), asked)
      // a usable answer of the owner is the result
      ensures Served(asked) ==>
                && r == Ok(asked.value.0, asked.value.1.body)
                && good == MoveToFront(GoodWith(old(good), profile), asked.value.0)
                && throttled == CooledBy(old(throttled), lookup, route, asked)
      // otherwise that of a broadcast is
      ensures !Served(asked) ==>
                && call.peers == Pool(GoodWith(old(good), profile), table, refreshed, self, relays,
                                      Cool(CooledBy(old(throttled), lookup, route, asked), route))
                && Traced(route, r, call) && (r.Ok? ==> Eligible(r.peer, self, relays))
                && good == GoodWith(GoodWith(old(good), profile), r)
                && throttled == CooledBy(old(throttled), lookup, route, asked) + Marks(route, call)
    {
      call := NoCall();
      asked, profile, lookup := AskOwner(user, route, table, refreshed, wakes, nodeOf);
      if Served(asked) {
        r := Ok(asked.value.0, asked.value.1.body);
      } else {
        r, call := Request(route, table, refreshed, wakes);
      }
    }
  }
}
