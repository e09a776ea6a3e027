/**
 Routing across several joined networks: concurrent callers of multiNode locate a
 user by racing a profile lookup over the networks, remember the winner, and send
 the user's traffic there. A run is any interleaving of the callers' atomic
 actions, with cache evictions and arbitrary answers in between.
 */
module MultiNet {
  import opened Basics

  type User = string
  type Route = string
  type Net = nat
  type Caller = nat

  datatype Call =
    | GetUser(user: User)
    | RequestUser(user: User, route: Route)
    | RequestIn(user: User, route: Route)
    | Request(route: Route)
  {
    predicate Routed() {
      RequestUser? || RequestIn?
    }
  }

  datatype Pc =
    | Begin
    | Checking(net: Net)        // GetUser asks the remembered network first
    | Racing(awaited: set<Net>) // answers still awaited
    | Found(net: Net)           // first network that knew the user, not yet remembered
    | Located(net: Net)         // about to stream the data route
    | Finished(served: Option<Net>)

  datatype Thread = Thread(call: Call, pc: Pc)

  /** A data route streamed into a network; user is who it was sent for. */
  datatype Sent = Sent(user: Option<User>, route: Route, net: Net)

  datatype State = State(
    home: map<User, Net>,
    answered: set<(User, Net)>,  // networks that have answered a profile lookup for a user
    late: set<(User, Net)>,      // lookups whose answer a decided race leaves unread
    threads: map<Caller, Thread>,
    sent: seq<Sent>)

  datatype Step =
    | Spawn(id: Caller, call: Call)
    | Enter(id: Caller)
    | Check(id: Caller, ok: bool)
    | Answer(id: Caller, net: Net, ok: bool)
    | GiveUp(id: Caller)
    | Remember(id: Caller)
    | Stream(id: Caller)
    | Straggler(user: User, net: Net) // a late lookup does find the user
    | Evict(user: User)

  // ---- the code ----

  /** Where a call goes on its first look at the home cache; nets is how many networks are joined. */
  function Entered(nets: nat, home: map<User, Net>, call: Call): Pc {
    match call
    case GetUser(u) => if u in home then Checking(home[u]) else Racing(Range(nets))
    case Request(_) => if nets == 1 then Located(0) else Finished(None)
    case _ =>
      if nets == 1 then Located(0)
      else if call.user == "" || nets == 0 then Finished(None)
      else if call.user in home then Located(home[call.user])
      else Racing(Range(nets))
  }

  predicate Enabled(s: State, e: Step) {
    match e
    case Spawn(id, _) => id !in s.threads
    case Straggler(u, net) => (u, net) in s.late
    case Evict(_) => true
    case _ =>
      e.id in s.threads &&
      var pc := s.threads[e.id].pc;
      match e
      case Enter(_) => pc.Begin?
      case Check(_, _) => pc.Checking? && s.threads[e.id].call.GetUser?
      case Answer(_, net, _) => pc.Racing? && net in pc.awaited && !s.threads[e.id].call.Request?
      case GiveUp(_) => pc == Racing({})
      case Remember(_) => pc.Found? && !s.threads[e.id].call.Request?
      case Stream(_) => pc.Located? && !s.threads[e.id].call.GetUser?
      case _ => true
  }

  function Apply(nets: nat, s: State, e: Step): State
    requires Enabled(s, e)
  {
    match e
    case Spawn(id, call) => s.(threads := s.threads[id := Thread(call, Begin)])
    case Straggler(u, net) => s.(answered := s.answered + {(u, net)})
    case Evict(u) => s.(home := s.home - {u})
    case Enter(id) => At(s, id, Entered(nets, s.home, s.threads[id].call))
    case Check(id, ok) =>
      var u, net := s.threads[id].call.user, s.threads[id].pc.net;
      if ok then At(s.(answered := s.answered + {(u, net)}), id, Finished(Some(net)))
      else At(s.(home := s.home - {u}), id, Racing(Range(nets)))
    case Answer(id, net, ok) =>
      var u := s.threads[id].call.user;
      if ok then
        At(s.(answered := s.answered + {(u, net)}, late := s.late + Lookups(u, s.threads[id].pc.awaited - {net})),
           id, Found(net))
      else At(s, id, Racing(s.threads[id].pc.awaited - {net}))
    case GiveUp(id) => At(s, id, Finished(None))
    case Remember(id) =>
      var t := s.threads[id];
      At(s.(home := s.home[t.call.user := t.pc.net]), id,
         if t.call.GetUser? then Finished(Some(t.pc.net)) else Located(t.pc.net))
    case Stream(id) =>
      var t := s.threads[id];
      var user := if t.call.Request? then None else Some(t.call.user);
      At(s.(sent := s.sent + [Sent(user, t.call.route, t.pc.net)]), id, Finished(Some(t.pc.net)))
  }

  function Lookups(u: User, nets: set<Net>): set<(User, Net)> {
    set net | net in nets :: (u, net)
  }

  function At(s: State, id: Caller, pc: Pc): State
    requires id in s.threads
  {
    s.(threads := s.threads[id := s.threads[id].(pc := pc)])
  }

  ghost predicate IsRun(nets: nat, run: seq<State>, steps: seq<Step>) {
    && |run| == |steps| + 1 && run[0] == State(map[], {}, {}, map[], [])
    && forall k | 0 <= k < |steps| :: Enabled(run[k], steps[k]) && run[k + 1] == Apply(nets, run[k], steps[k])
  }

  // ---- confinement ----

  ghost predicate HomeConfined(nets: nat, home: map<User, Net>, answered: set<(User, Net)>) {
    forall u | u in home :: home[u] < nets && (u, home[u]) in answered
  }

  ghost predicate SentConfined(nets: nat, sent: seq<Sent>, answered: set<(User, Net)>) {
    forall k | 0 <= k < |sent| ::
      sent[k].user.Some? && sent[k].net < nets && (sent[k].user.value, sent[k].net) in answered
  }

  ghost predicate ThreadConfined(nets: nat, t: Thread, answered: set<(User, Net)>) {
    match t.pc
    case Begin => true
    case Checking(net) => t.call.GetUser? && net < nets
    case Racing(awaited) => !t.call.Request? && awaited <= Range(nets)
    case Found(net) => !t.call.Request? && net < nets && (t.call.user, net) in answered
    case Located(net) => t.call.Routed() && net < nets && (t.call.user, net) in answered
    case Finished(served) =>
      served.Some? ==> !t.call.Request? && served.value < nets && (t.call.user, served.value) in answered
  }

  /** The users some call has looked up. */
  function LookedUp(s: State): set<User> {
    set id | id in s.threads && !s.threads[id].call.Request? :: s.threads[id].call.user
  }

  /** Only joined networks answer, and only for users a call looked up. */
  ghost predicate LookupsConfined(nets: nat, s: State) {
    forall a | a in s.answered + s.late :: a.1 < nets && a.0 in LookedUp(s)
  }

  ghost predicate Confined(nets: nat, s: State) {
    && LookupsConfined(nets, s)
    && HomeConfined(nets, s.home, s.answered)
    && SentConfined(nets, s.sent, s.answered)
    && forall id | id in s.threads :: ThreadConfined(nets, s.threads[id], s.answered)
  }

  lemma LookedUpGrows(nets: nat, s: State, e: Step)
    requires Enabled(s, e)
    ensures LookedUp(s) <= LookedUp(Apply(nets, s, e))
  {
    var t := Apply(nets, s, e);
    forall u | u in LookedUp(s)
      ensures u in LookedUp(t)
    {
      var id :| id in s.threads && !s.threads[id].call.Request? && s.threads[id].call.user == u;
      assert id in t.threads && t.threads[id].call == s.threads[id].call;
    }
  }

  lemma StepLookups(nets: nat, s: State, e: Step)
    requires Confined(nets, s) && Enabled(s, e)
    ensures LookupsConfined(nets, Apply(nets, s, e))
  {
    var t := Apply(nets, s, e);
    LookedUpGrows(nets, s, e);
    forall a | a in t.answered + t.late
      ensures a.1 < nets && a.0 in LookedUp(t)
    {
      if a !in s.answered + s.late {
        assert e.Answer? || e.Check?;
        assert ThreadConfined(nets, s.threads[e.id], s.answered);
        assert t.threads[e.id].call == s.threads[e.id].call;
      }
    }
  }

  lemma StepConfined(nets: nat, s: State, e: Step)
    requires nets >= 2 && Confined(nets, s) && Enabled(s, e)
    ensures Confined(nets, Apply(nets, s, e))
  {
    var t := Apply(nets, s, e);
    StepLookups(nets, s, e);
    assert s.answered <= t.answered;
    forall id | id in t.threads
      ensures ThreadConfined(nets, t.threads[id], t.answered)
    {
    }
  }

  /**
   With two or more networks, over every run: only joined networks answer, and only for users some
   call looked up; a remembered home network has answered a profile lookup for that user, and every
   data route was sent for some user into such a network.
   */
  lemma {:induction false} Confinement(nets: nat, run: seq<State>, steps: seq<Step>, k: nat)
    requires nets >= 2 && IsRun(nets, run, steps) && k < |run|
    ensures Confined(nets, run[k])
  {
    if k > 0 {
      Confinement(nets, run, steps, k - 1);
      StepConfined(nets, run[k - 1], steps[k - 1]);
    }
  }

  /** A user no network ever answered for, and a call that names no user, get no data route at all. */
  lemma NoHomeNoTraffic(nets: nat, run: seq<State>, steps: seq<Step>, k: nat, u: User)
    requires nets >= 2 && IsRun(nets, run, steps) && k < |run|
    requires forall net | net < nets :: (u, net) !in run[k].answered
    ensures forall m | 0 <= m < |run[k].sent| :: run[k].sent[m].user.Some? && run[k].sent[m].user != Some(u)
    ensures u !in run[k].home
  {
    Confinement(nets, run, steps, k);
  }

  // ---- the race does not matter ----

  /** Networks answer a profile lookup positively exactly when they know the user. */
  ghost predicate FaithfulStep(knows: set<(User, Net)>, s: State, e: Step)
    requires Enabled(s, e)
  {
    match e
    case Answer(id, net, ok) => ok == ((s.threads[id].call.user, net) in knows)
    case Check(id, ok) => ok == ((s.threads[id].call.user, s.threads[id].pc.net) in knows)
    case Straggler(u, net) => (u, net) in knows
    case _ => true
  }

  ghost predicate Faithful(knows: set<(User, Net)>, run: seq<State>, steps: seq<Step>)
    requires |run| == |steps| + 1
  {
    forall k | 0 <= k < |steps| :: Enabled(run[k], steps[k]) && FaithfulStep(knows, run[k], steps[k])
  }

  ghost predicate Settled(nets: nat, knows: set<(User, Net)>, t: Thread) {
    t.call.Request? ||
    match t.pc
    case Racing(awaited) => forall net | net < nets && net !in awaited :: (t.call.user, net) !in knows
    case Finished(None) => t.call.user == "" || forall net | net < nets :: (t.call.user, net) !in knows
    case _ => true
  }

  lemma StepSettles(nets: nat, knows: set<(User, Net)>, s: State, e: Step)
    requires nets >= 2 && Confined(nets, s) && Enabled(s, e) && FaithfulStep(knows, s, e) && s.answered <= knows
    requires forall id | id in s.threads :: Settled(nets, knows, s.threads[id])
    ensures var t := Apply(nets, s, e);
            t.answered <= knows && forall id | id in t.threads :: Settled(nets, knows, t.threads[id])
  {
    var t := Apply(nets, s, e);
    forall id | id in t.threads
      ensures Settled(nets, knows, t.threads[id])
    {
      if id in s.threads {
        assert Settled(nets, knows, s.threads[id]);
      }
    }
  }

  lemma {:induction false} RunSettles(nets: nat, knows: set<(User, Net)>, run: seq<State>, steps: seq<Step>, k: nat)
    requires nets >= 2 && IsRun(nets, run, steps) && Faithful(knows, run, steps) && k < |run|
    ensures run[k].answered <= knows
    ensures forall id | id in run[k].threads :: Settled(nets, knows, run[k].threads[id])
  {
    if k > 0 {
      RunSettles(nets, knows, run, steps, k - 1);
      Confinement(nets, run, steps, k - 1);
      StepSettles(nets, knows, run[k - 1], steps[k - 1]);
    }
  }

  /**
   When each user is known to at most one network, a finished call names that network or none:
   the same one in every run, whatever the order in which the answers raced in.
   */
  lemma RaceIndependence(nets: nat, knows: set<(User, Net)>,
                         run: seq<State>, steps: seq<Step>, k: nat, id: Caller,
                         run': seq<State>, steps': seq<Step>, k': nat, id': Caller)
    requires nets >= 2 && forall u, a, b | (u, a) in knows && (u, b) in knows :: a == b
    requires IsRun(nets, run, steps) && Faithful(knows, run, steps) && k < |run|
    requires IsRun(nets, run', steps') && Faithful(knows, run', steps') && k' < |run'|
    requires id in run[k].threads && id' in run'[k'].threads
    requires var t, t' := run[k].threads[id], run'[k'].threads[id'];
             !t.call.Request? && !t'.call.Request? && t.call.user == t'.call.user != "" &&
             t.pc.Finished? && t'.pc.Finished?
    ensures run[k].threads[id].pc.served == run'[k'].threads[id'].pc.served
  {
    RunSettles(nets, knows, run, steps, k);
    RunSettles(nets, knows, run', steps', k');
    Confinement(nets, run, steps, k);
    Confinement(nets, run', steps', k');
    var t, t' := run[k].threads[id], run'[k'].threads[id'];
    assert ThreadConfined(nets, t, run[k].answered) && ThreadConfined(nets, t', run'[k'].answered);
    assert Settled(nets, knows, t) && Settled(nets, knows, t');
  }

  /** A finished call for a user some network knows was served by a network that knows the user. */
  lemma KnownUserIsServed(nets: nat, knows: set<(User, Net)>, run: seq<State>, steps: seq<Step>, k: nat, id: Caller)
    requires nets >= 2 && IsRun(nets, run, steps) && Faithful(knows, run, steps) && k < |run|
    requires id in run[k].threads && run[k].threads[id].pc.Finished?
    requires var c := run[k].threads[id].call;
             !c.Request? && c.user != "" && exists net | net < nets :: (c.user, net) in knows
    ensures var t := run[k].threads[id]; t.pc.served.Some? && (t.call.user, t.pc.served.value) in knows
  {
    RunSettles(nets, knows, run, steps, k);
    Confinement(nets, run, steps, k);
    var t := run[k].threads[id];
    assert Settled(nets, knows, t) && ThreadConfined(nets, t, run[k].answered);
  }

  // ---- what a served call has sent ----

  /** The data route a call streams, once it is served by a network. */
  function StreamOf(t: Thread): Sent
    requires t.pc.Finished? && t.pc.served.Some? && !t.call.GetUser?
  {
    Sent(if t.call.Request? then None else Some(t.call.user), t.call.route, t.pc.served.value)
  }

  ghost predicate SentExactly(s: State) {
    && (forall id | id in s.threads && s.threads[id].pc.Finished? && s.threads[id].pc.served.Some? &&
                    !s.threads[id].call.GetUser? :: StreamOf(s.threads[id]) in s.sent)
    && (forall x | x in s.sent :: exists id :: id in s.threads && Streamed(s.threads[id], x))
  }

  predicate Streamed(t: Thread, x: Sent) {
    t.pc.Finished? && t.pc.served.Some? && !t.call.GetUser? && StreamOf(t) == x
  }

  lemma StepSent(nets: nat, s: State, e: Step)
    requires Enabled(s, e) && SentExactly(s) && forall id | id in s.threads :: Typed(s.threads[id])
    ensures SentExactly(Apply(nets, s, e))
  {
    var t := Apply(nets, s, e);
    forall x | x in t.sent
      ensures exists id :: id in t.threads && Streamed(t.threads[id], x)
    {
      if x in s.sent {
        var id :| id in s.threads && Streamed(s.threads[id], x);
        assert t.threads[id] == s.threads[id];
      } else {
        assert e.Stream? && Streamed(t.threads[e.id], x);
      }
    }
  }

  /** Only profile lookups are checked, and calls that name no user never race. */
  predicate Typed(t: Thread) {
    && (t.pc.Checking? ==> t.call.GetUser?)
    && (t.pc.Racing? || t.pc.Found? ==> !t.call.Request?)
    && (t.pc.Located? ==> !t.call.GetUser?)
  }

  lemma StepTyped(nets: nat, s: State, e: Step)
    requires Enabled(s, e) && forall id | id in s.threads :: Typed(s.threads[id])
    ensures forall id | id in Apply(nets, s, e).threads :: Typed(Apply(nets, s, e).threads[id])
  {
  }

  /** A call that streams is served exactly once its route has gone into that network, and nothing else is sent. */
  lemma {:induction false} ServedMeansSent(nets: nat, run: seq<State>, steps: seq<Step>, k: nat)
    requires IsRun(nets, run, steps) && k < |run|
    ensures SentExactly(run[k]) && forall id | id in run[k].threads :: Typed(run[k].threads[id])
  {
    if k > 0 {
      ServedMeansSent(nets, run, steps, k - 1);
      StepSent(nets, run[k - 1], steps[k - 1]);
      StepTyped(nets, run[k - 1], steps[k - 1]);
    }
  }

  // ---- the remembered home ----

  /**
   What the home cache does for a call: a routed call goes straight to it, a profile lookup asks it
   first; a network found is remembered, one that no longer knows the user is forgotten.
   */
  lemma HomeIsUsed(nets: nat, s: State, id: Caller, ok: bool)
    requires nets >= 2 && id in s.threads && !s.threads[id].call.Request?
    ensures var t, u := s.threads[id], s.threads[id].call.user;
            && (t.pc.Begin? && t.call.Routed() && u != "" ==>
                  Apply(nets, s, Enter(id)).threads[id].pc ==
                  if u in s.home then Located(s.home[u]) else Racing(Range(nets)))
            && (t.pc.Begin? && t.call.GetUser? ==>
                  Apply(nets, s, Enter(id)).threads[id].pc ==
                  if u in s.home then Checking(s.home[u]) else Racing(Range(nets)))
            && (t.pc.Found? ==>
                  var v := Apply(nets, s, Remember(id)); u in v.home && v.home[u] == t.pc.net)
            && (t.pc.Checking? && t.call.GetUser? ==>
                  var v := Apply(nets, s, Check(id, ok));
                  if ok then v.threads[id].pc == Finished(Some(t.pc.net)) && v.home == s.home
                  else v.threads[id].pc == Racing(Range(nets)) && u !in v.home)
  {
  }

  // ---- calls that locate nobody ----

  /** A call whose network the number of joined networks decides, and that network. */
  function Decided(nets: nat, call: Call): Option<Option<Net>> {
    if call.GetUser? then None
    else if nets == 1 then Some(Some(0))
    else if call.Request? || call.user == "" || nets == 0 then Some(None)
    else None
  }

  /** Such a call locates nobody: it streams into that network or is refused at once. */
  predicate Direct(nets: nat, t: Thread) {
    match Decided(nets, t.call)
    case None => true
    case Some(net) => t.pc.Begin? || (net.Some? && t.pc == Located(net.value)) || t.pc == Finished(net)
  }

  lemma StepDirect(nets: nat, s: State, e: Step)
    requires Enabled(s, e) && forall id | id in s.threads :: Direct(nets, s.threads[id])
    ensures forall id | id in Apply(nets, s, e).threads :: Direct(nets, Apply(nets, s, e).threads[id])
  {
  }

  /**
   In every run: with one network joined every data call goes there; otherwise a call without a user, or
   for the empty one, is refused.
   */
  lemma {:induction false} DirectCalls(nets: nat, run: seq<State>, steps: seq<Step>, k: nat, id: Caller)
    requires IsRun(nets, run, steps) && k < |run| && id in run[k].threads && run[k].threads[id].pc.Finished?
    ensures var c, served := run[k].threads[id].call, run[k].threads[id].pc.served;
            && (nets == 1 && !c.GetUser? ==> served == Some(0))
            && (nets != 1 && (c.Request? || (c.Routed() && (c.user == "" || nets == 0))) ==> served == None)
  {
    RunDirect(nets, run, steps, k);
    assert Direct(nets, run[k].threads[id]);
  }

  lemma {:induction false} RunDirect(nets: nat, run: seq<State>, steps: seq<Step>, k: nat)
    requires IsRun(nets, run, steps) && k < |run|
    ensures forall id | id in run[k].threads :: Direct(nets, run[k].threads[id])
  {
    if k > 0 {
      RunDirect(nets, run, steps, k - 1);
      StepDirect(nets, run[k - 1], steps[k - 1]);
    }
  }

  // ---- every call ends ----

  /** How many steps of its own a call can still take. */
  function Rank(nets: nat, pc: Pc): nat {
    match pc
    case Begin => nets + 5
    case Checking(_) => nets + 4
    case Racing(awaited) => |awaited| + 3
    case Found(_) => 2
    case Located(_) => 1
    case Finished(_) => 0
  }

  /** The steps of call id. */
  predicate Own(id: Caller, e: Step) {
    !e.Spawn? && !e.Straggler? && !e.Evict? && e.id == id
  }

  lemma StepOfCall(s: State, id: Caller)
    requires id in s.threads && !s.threads[id].pc.Finished? && Typed(s.threads[id])
    ensures exists e :: Own(id, e) && Enabled(s, e)
  {
    match s.threads[id].pc
    case Begin => assert Enabled(s, Enter(id)) && Own(id, Enter(id));
    case Checking(_) => assert Enabled(s, Check(id, true)) && Own(id, Check(id, true));
    case Racing(awaited) =>
      if awaited == {} {
        assert Enabled(s, GiveUp(id)) && Own(id, GiveUp(id));
      } else {
        var net: Net :| net in awaited;
        assert Enabled(s, Answer(id, net, true)) && Own(id, Answer(id, net, true));
      }
    case Found(_) => assert Enabled(s, Remember(id)) && Own(id, Remember(id));
    case Located(_) => assert Enabled(s, Stream(id)) && Own(id, Stream(id));
  }

  lemma RangeRank(nets: nat)
    ensures Rank(nets, Racing(Range(nets))) == nets + 3
  {
    RangeSize(nets);
  }

  lemma FewerAwaited(awaited: set<Net>, net: Net)
    requires net in awaited
    ensures |awaited - {net}| == |awaited| - 1
  {
  }

  lemma EnteredRank(nets: nat, home: map<User, Net>, call: Call)
    ensures Rank(nets, Entered(nets, home, call)) <= nets + 4
  {
    RangeRank(nets);
  }

  lemma EnterRank(nets: nat, s: State, id: Caller)
    requires id in s.threads && Enabled(s, Enter(id))
    ensures Rank(nets, Apply(nets, s, Enter(id)).threads[id].pc) < Rank(nets, s.threads[id].pc)
  {
    EnteredRank(nets, s.home, s.threads[id].call);
  }

  lemma AnswerGoes(nets: nat, s: State, id: Caller, net: Net, ok: bool)
    requires id in s.threads && Enabled(s, Answer(id, net, ok))
    ensures Apply(nets, s, Answer(id, net, ok)).threads[id].pc ==
            if ok then Found(net) else Racing(s.threads[id].pc.awaited - {net})
  {
  }

  lemma AnswerRank(nets: nat, s: State, id: Caller, net: Net, ok: bool)
    requires id in s.threads && Enabled(s, Answer(id, net, ok))
    ensures Rank(nets, Apply(nets, s, Answer(id, net, ok)).threads[id].pc) < Rank(nets, s.threads[id].pc)
  {
    AnswerGoes(nets, s, id, net, ok);
    FewerAwaited(s.threads[id].pc.awaited, net);
  }

  lemma CheckRank(nets: nat, s: State, id: Caller, ok: bool)
    requires id in s.threads && Enabled(s, Check(id, ok))
    ensures Rank(nets, Apply(nets, s, Check(id, ok)).threads[id].pc) < Rank(nets, s.threads[id].pc)
  {
    RangeRank(nets);
  }

  lemma StepRank(nets: nat, s: State, e: Step, id: Caller)
    requires id in s.threads && Own(id, e) && Enabled(s, e)
    ensures Rank(nets, Apply(nets, s, e).threads[id].pc) < Rank(nets, s.threads[id].pc)
  {
    match e
    case Enter(_) => EnterRank(nets, s, id);
    case Answer(_, net, ok) => AnswerRank(nets, s, id, net, ok);
    case Check(_, ok) => CheckRank(nets, s, id, ok);
    case _ =>
  }

  /** A call that has not finished can take a step of its own, and each brings it nearer to its end. */
  lemma CallsEnd(nets: nat, run: seq<State>, steps: seq<Step>, k: nat, id: Caller)
    requires IsRun(nets, run, steps) && k < |run| && id in run[k].threads && !run[k].threads[id].pc.Finished?
    ensures exists e :: Own(id, e) && Enabled(run[k], e)
    ensures forall e | Own(id, e) && Enabled(run[k], e) ::
              Rank(nets, Apply(nets, run[k], e).threads[id].pc) < Rank(nets, run[k].threads[id].pc)
  {
    ServedMeansSent(nets, run, steps, k);
    StepOfCall(run[k], id);
    forall e | Own(id, e) && Enabled(run[k], e)
      ensures Rank(nets, Apply(nets, run[k], e).threads[id].pc) < Rank(nets, run[k].threads[id].pc)
    {
      StepRank(nets, run[k], e, id);
    }
  }

  // ---- the object, one call at a time ----

  /** The first positive answer in the order the answers arrive. */
  function FirstKnowing(answers: seq<(Net, bool)>): Option<Net> {
    if answers == [] then None
    else if answers[0].1 then Some(answers[0].0)
    else FirstKnowing(answers[1..])
  }

  /** The networks that answered up to and including the first that knew the user. */
  function Knowing(u: User, answers: seq<(Net, bool)>): set<(User, Net)> {
    if FirstKnowing(answers).Some? then {(u, FirstKnowing(answers).value)} else {}
  }

  lemma {:induction false} FirstKnowingIsEarliest(answers: seq<(Net, bool)>)
    ensures match FirstKnowing(answers)
            case Some(n) => exists k: nat :: k < |answers| && answers[k] == (n, true) && AllNegative(answers[..k])
            case None => AllNegative(answers)
  {
    if answers != [] && !answers[0].1 {
      FirstKnowingIsEarliest(answers[1..]);
      if FirstKnowing(answers).Some? {
        var k: nat :| k < |answers| - 1 && answers[1..][k] == (FirstKnowing(answers).value, true) &&
                      AllNegative(answers[1..][..k]);
        assert answers[..k + 1] == [answers[0]] + answers[1..][..k] && answers[k + 1] == answers[1..][k];
      } else {
        assert answers == [answers[0]] + answers[1..];
      }
    } else if answers != [] {
      assert answers[..0] == [] && answers[0] == (FirstKnowing(answers).value, true);
    }
  }

  predicate AllNegative(answers: seq<(Net, bool)>) {
    forall i | 0 <= i < |answers| :: !answers[i].1
  }

  lemma PositiveBefore(answers: seq<(Net, bool)>, i: nat, k: nat)
    requires i < k < |answers| && answers[i].1
    ensures !AllNegative(answers[..k])
  {
    assert answers[..k][i].1;
  }

  /** The race picks exactly the first positive answer, and nothing exactly when all are negative. */
  lemma FirstKnowingExactly(answers: seq<(Net, bool)>, n: Net)
    ensures FirstKnowing(answers) == Some(n) <==>
            exists k: nat :: k < |answers| && answers[k] == (n, true) && AllNegative(answers[..k])
    ensures FirstKnowing(answers) == None <==> AllNegative(answers)
  {
    FirstKnowingIsEarliest(answers);
    if FirstKnowing(answers).Some? {
      var i: nat :| i < |answers| && answers[i] == (FirstKnowing(answers).value, true) && AllNegative(answers[..i]);
      assert !AllNegative(answers);
      forall k: nat | k < |answers| && answers[k] == (n, true)
        ensures AllNegative(answers[..k]) ==> k == i
      {
        if i < k {
          PositiveBefore(answers, i, k);
        } else if k < i {
          PositiveBefore(answers, k, i);
        }
      }
    }
  }

  /** Every joined network has answered, truthfully. */
  ghost predicate Complete(nets: nat, knows: set<(User, Net)>, u: User, answers: seq<(Net, bool)>) {
    && (forall a | a in answers :: a.0 < nets && a.1 == ((u, a.0) in knows))
    && (forall net | net < nets :: (net, (u, net) in knows) in answers)
  }

  /** When every network answers, the race finds a network that knows the user exactly if one does. */
  lemma RaceFindsWhoKnows(nets: nat, knows: set<(User, Net)>, u: User, answers: seq<(Net, bool)>)
    requires Complete(nets, knows, u, answers)
    ensures FirstKnowing(answers).Some? <==> exists net | net < nets :: (u, net) in knows
    ensures FirstKnowing(answers).Some? ==>
              FirstKnowing(answers).value < nets && (u, FirstKnowing(answers).value) in knows
  {
    FirstKnowingIsEarliest(answers);
    if FirstKnowing(answers).Some? {
      FirstKnowingIn(answers);
    } else {
      forall net | net < nets
        ensures (u, net) !in knows
      {
        var a := (net, (u, net) in knows);
        assert a in answers;
      }
    }
  }

  lemma SentOneMore(nets: nat, sent: seq<Sent>, answered: set<(User, Net)>, s: Sent)
    requires SentConfined(nets, sent, answered)
    requires s.user.Some? && s.net < nets && (s.user.value, s.net) in answered
    ensures SentConfined(nets, sent + [s], answered)
  {
  }

  lemma {:induction false} FirstKnowingIn(answers: seq<(Net, bool)>)
    ensures FirstKnowing(answers).Some? ==> (FirstKnowing(answers).value, true) in answers
  {
    if answers != [] && !answers[0].1 {
      FirstKnowingIn(answers[1..]);
    }
  }

  class MultiNode {
    const nets: nat
    var home: map<User, Net>
    ghost var answered: set<(User, Net)>
    ghost var sent: seq<Sent>

    ghost predicate Valid()
      reads this
    {
      nets > 1 ==> HomeConfined(nets, home, answered) && SentConfined(nets, sent, answered)
    }

    constructor (nets: nat)
      ensures this.nets == nets && home == map[] && answered == {} && sent == [] && Valid()
    {
      this.nets, home, answered, sent := nets, map[], {}, [];
    }

    /** Reads the result channel until one network knows the user; answers is the arrival order. */
    method FirstWithUser(u: User, answers: seq<(Net, bool)>) returns (r: Option<Net>)
      modifies this`answered
      ensures r == FirstKnowing(answers)
      ensures answered == old(answered) + Knowing(u, answers)
    {
      for k := 0 to |answers|
        invariant FirstKnowing(answers) == FirstKnowing(answers[k..])
        invariant answered == old(answered)
      {
        if answers[k].1 {
          answered := answered + {(u, answers[k].0)};
          return Some(answers[k].0);
        }
      }
      r := None;
    }

    method Remember(u: User, net: Net)
      modifies this`home
      ensures home == old(home)[u := net]
    {
      if u in home && home[u] == net {
        return;
      }
      home := home[u := net];
    }

    method Forget(u: User)
      modifies this`home
      ensures home == old(home) - {u}
    {
      home := home - {u};
    }

    method Locate(u: User, answers: seq<(Net, bool)>) returns (r: Option<Net>)
      requires forall a | a in answers :: a.0 < nets
      requires Valid()
      modifies this`home, this`answered
      ensures Valid()
      ensures answered ==
              old(answered) + if nets > 1 && u != "" && u !in old(home) then Knowing(u, answers) else {}
      ensures nets == 1 ==> r == Some(0) && home == old(home)
      ensures nets != 1 && (u == "" || nets == 0) ==> r == None && home == old(home)
      ensures nets > 1 && u in old(home) && u != "" ==> r == Some(old(home)[u]) && home == old(home)
      ensures nets > 1 && u !in old(home) && u != "" ==> r == FirstKnowing(answers)
      ensures nets > 1 && r.Some? ==> (u, r.value) in answered && home == old(home)[u := r.value]
      ensures r.None? ==> home == old(home)
    {
      if nets == 1 {
        return Some(0);
      }
      if u == "" || nets == 0 {
        return None;
      }
      if u in home {
        return Some(home[u]);
      }
      r := FirstWithUser(u, answers);
      FirstKnowingIn(answers);
      if r.None? {
        return;
      }
      Remember(u, r.value);
    }

    /** still says whether the remembered network still knows the user. */
    method ResolveUser(u: User, still: bool, answers: seq<(Net, bool)>) returns (r: Option<Net>)
      requires Valid() && forall a | a in answers :: a.0 < nets
      modifies this`home, this`answered
      ensures Valid()
      ensures answered ==
              old(answered) + if u in old(home) && still then {(u, old(home)[u])} else Knowing(u, answers)
      ensures u in old(home) && still ==> r == Some(old(home)[u]) && home == old(home)
      ensures !(u in old(home) && still) ==> r == FirstKnowing(answers)
      ensures r.Some? ==> (u, r.value) in answered && home == old(home)[u := r.value]
      ensures r.None? ==> home == old(home) - {u}
    {
      if u in home {
        if still {
          answered := answered + {(u, home[u])};
          return Some(home[u]);
        }
        Forget(u);
      }
      r := FirstWithUser(u, answers);
      FirstKnowingIn(answers);
      if r.Some? {
        Remember(u, r.value);
      }
    }

    /** requestUser and requestIn: stream the route into the user's network, or refuse. */
    method RequestFor(u: User, route: Route, answers: seq<(Net, bool)>) returns (r: Option<Net>)
      requires Valid() && forall a | a in answers :: a.0 < nets
      modifies this
      ensures Valid()
      ensures answered ==
              old(answered) + if nets > 1 && u != "" && u !in old(home) then Knowing(u, answers) else {}
      ensures sent == old(sent) + if r.Some? then [Sent(Some(u), route, r.value)] else []
      ensures nets == 1 ==> r == Some(0)
      ensures nets != 1 && (u == "" || nets == 0) ==> r == None
      ensures nets > 1 && u != "" ==> r == if u in old(home) then Some(old(home)[u]) else FirstKnowing(answers)
      ensures nets > 1 && r.Some? ==> (u, r.value) in answered && home == old(home)[u := r.value]
      ensures r.None? ==> home == old(home)
    {
      r := Locate(u, answers);
      if r.Some? {
        if nets > 1 {
          assert u in home && home[u] == r.value;
          SentOneMore(nets, sent, answered, Sent(Some(u), route, r.value));
        }
        sent := sent + [Sent(Some(u), route, r.value)];
      }
    }

    /** A route that names no user is served only where there is nothing to choose. */
    method RequestUnrouted(route: Route) returns (r: Option<Net>)
      requires Valid()
      modifies this`sent
      ensures Valid() && (r.Some? <==> nets == 1)
      ensures sent == old(sent) + if r.Some? then [Sent(None, route, 0)] else []
    {
      if nets == 1 {
        sent := sent + [Sent(None, route, 0)];
        return Some(0);
      }
      r := None;
    }
  }
}
