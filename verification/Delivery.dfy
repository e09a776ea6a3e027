/**
 The delivery semaphore shared by Follow accepts, forwarded inbound activities
 and follower fan-outs. A run is any interleaving of all of them, with arbitrary
 successes, failures and cancellations.
 */
module Delivery {
  import opened Basics

  const MAX_INFLIGHT: nat := 16

  type JobId = nat
  type FanId = nat

  /** Who may hold a token: an inbox job, or the delivery to one follower of a fan-out. */
  datatype Holder = Inbox(job: JobId) | Follower(fan: FanId, index: nat)

  /** An accept resolves the inbox, posts, persists the follower and notifies, in that order. */
  datatype Stage = Resolving | Posting | Persisting | Notifying | Forwarding | Leaving

  datatype Phase = Looping | Draining | Returned

  /** A fan-out over n followers; running ones hold a token, released ones are not yet counted done. */
  datatype Fan = Fan(
    n: nat,
    next: nat,
    running: set<nat>,
    released: set<nat>,
    settled: set<nat>,
    cancelled: bool,
    phase: Phase)

  datatype State = State(
    tokens: int,
    holders: set<Holder>,
    jobs: map<JobId, Stage>,
    fans: map<FanId, Fan>,
    posted: set<JobId>,     // accepts whose Accept was delivered
    persisted: set<JobId>,  // accepts that tried to store the follower
    notified: set<JobId>)   // accepts that announced the new follower

  datatype Step =
    | Admit(job: JobId, accept: bool)          // the non-blocking acquisition succeeded
    | Refuse                                   // it did not: 503, nothing started
    | Advance(job: JobId, ok: bool)            // the job's next action, with its outcome
    | Announce(job: JobId, update: Option<FanId>, n: nat) // onFollowed; starting federation fans a profile update out
    | Leave(job: JobId)
    | Open(fan: FanId, n: nat)
    | Acquire(fan: FanId)                      // the blocking acquisition
    | Cancel(fan: FanId)
    | Quit(fan: FanId)                         // the select saw the cancellation
    | Exhaust(fan: FanId)
    | Release(fan: FanId, i: nat)
    | Settle(fan: FanId, i: nat)
    | Return(fan: FanId)

  function Init(): State {
    State(0, {}, map[], map[], {}, {}, {})
  }

  /** The fan-out is looping and has followers left to launch. */
  predicate HasMore(s: State, fan: FanId) {
    fan in s.fans && s.fans[fan].phase.Looping? && s.fans[fan].next < s.fans[fan].n
  }

  predicate Enabled(s: State, e: Step) {
    match e
    case Admit(job, _) => s.tokens < MAX_INFLIGHT && job !in s.jobs && job !in s.posted
    case Refuse => s.tokens >= MAX_INFLIGHT
    case Advance(job, _) => job in s.jobs && !s.jobs[job].Leaving? && !s.jobs[job].Notifying?
    case Announce(job, update, _) =>
      job in s.jobs && s.jobs[job].Notifying? && (update.Some? ==> update.value !in s.fans)
    case Leave(job) => job in s.jobs && s.jobs[job].Leaving?
    case Open(fan, _) => fan !in s.fans
    case Acquire(fan) => HasMore(s, fan) && s.tokens < MAX_INFLIGHT
    case Cancel(fan) => fan in s.fans
    case Quit(fan) => HasMore(s, fan) && s.fans[fan].cancelled
    case Exhaust(fan) => fan in s.fans && s.fans[fan].phase.Looping? && s.fans[fan].next >= s.fans[fan].n
    case Release(fan, i) => fan in s.fans && i in s.fans[fan].running
    case Settle(fan, i) => fan in s.fans && i in s.fans[fan].released
    case Return(fan) =>
      fan in s.fans && s.fans[fan].phase.Draining? && s.fans[fan].running == {} && s.fans[fan].released == {}
  }

  function NewFan(n: nat): Fan {
    Fan(n, 0, {}, {}, {}, false, Looping)
  }

  function Apply(s: State, e: Step): State
    requires Enabled(s, e)
  {
    match e
    case Admit(job, accept) =>
      s.(tokens := s.tokens + 1, holders := s.holders + {Inbox(job)},
         jobs := s.jobs[job := if accept then Resolving else Forwarding])
    case Refuse => s
    case Advance(job, ok) =>
      match s.jobs[job] {
        case Resolving => s.(jobs := s.jobs[job := if ok then Posting else Leaving])
        case Posting =>
          if ok then s.(jobs := s.jobs[job := Persisting], posted := s.posted + {job})
          else s.(jobs := s.jobs[job := Leaving])
        case Persisting => s.(jobs := s.jobs[job := Notifying], persisted := s.persisted + {job})
        case _ => s.(jobs := s.jobs[job := Leaving])
      }
    case Announce(job, update, n) =>
      s.(jobs := s.jobs[job := Leaving], notified := s.notified + {job},
         fans := if update.Some? then s.fans[update.value := NewFan(n)] else s.fans)
    case Leave(job) => s.(tokens := s.tokens - 1, holders := s.holders - {Inbox(job)}, jobs := s.jobs - {job})
    case Open(fan, n) => s.(fans := s.fans[fan := NewFan(n)])
    case Acquire(fan) =>
      var f := s.fans[fan];
      s.(tokens := s.tokens + 1, holders := s.holders + {Follower(fan, f.next)},
         fans := s.fans[fan := f.(next := f.next + 1, running := f.running + {f.next})])
    case Cancel(fan) => s.(fans := s.fans[fan := s.fans[fan].(cancelled := true)])
    case Quit(fan) => s.(fans := s.fans[fan := s.fans[fan].(phase := Draining)])
    case Exhaust(fan) => s.(fans := s.fans[fan := s.fans[fan].(phase := Draining)])
    case Release(fan, i) =>
      var f := s.fans[fan];
      s.(tokens := s.tokens - 1, holders := s.holders - {Follower(fan, i)},
         fans := s.fans[fan := f.(running := f.running - {i}, released := f.released + {i})])
    case Settle(fan, i) =>
      var f := s.fans[fan];
      s.(fans := s.fans[fan := f.(released := f.released - {i}, settled := f.settled + {i})])
    case Return(fan) => s.(fans := s.fans[fan := s.fans[fan].(phase := Returned)])
  }

  ghost predicate IsRun(run: seq<State>, steps: seq<Step>) {
    && |run| == |steps| + 1 && run[0] == Init()
    && forall k | 0 <= k < |steps| :: Enabled(run[k], steps[k]) && run[k + 1] == Apply(run[k], steps[k])
  }

  // ---- tokens ----

  ghost predicate TokensHeld(s: State) {
    && s.tokens == |s.holders| && s.tokens <= MAX_INFLIGHT
    && (forall job :: Inbox(job) in s.holders <==> job in s.jobs)
    && (forall fan, i :: Follower(fan, i) in s.holders <==> fan in s.fans && i in s.fans[fan].running)
  }

  ghost predicate FanFine(f: Fan) {
    && f.next <= f.n
    && (forall i: nat :: i < f.next <==> i in f.running || i in f.released || i in f.settled)
    && (!f.phase.Looping? && !f.cancelled ==> f.next == f.n)
    && (f.phase.Returned? ==> f.running == {} && f.released == {})
  }

  ghost predicate AcceptOrder(s: State) {
    && s.notified <= s.persisted && s.persisted <= s.posted
    && forall job | job in s.jobs ::
         match s.jobs[job]
         case Notifying => job in s.persisted && job !in s.notified
         case Persisting => job in s.posted && job !in s.persisted
         case Leaving => job in s.posted ==> job in s.notified
         case _ => job !in s.posted
  }

  lemma AdmitTokens(s: State, job: JobId, accept: bool)
    requires TokensHeld(s) && Enabled(s, Admit(job, accept))
    ensures TokensHeld(Apply(s, Admit(job, accept)))
  {
    assert Inbox(job) !in s.holders;
  }

  lemma LeaveTokens(s: State, job: JobId)
    requires TokensHeld(s) && Enabled(s, Leave(job))
    ensures TokensHeld(Apply(s, Leave(job)))
  {
    assert |s.holders - {Inbox(job)}| == |s.holders| - 1;
  }

  lemma AcquireTokens(s: State, fan: FanId)
    requires TokensHeld(s) && Enabled(s, Acquire(fan)) && FanFine(s.fans[fan])
    ensures TokensHeld(Apply(s, Acquire(fan)))
  {
    var f, t := s.fans[fan], Apply(s, Acquire(fan));
    assert Follower(fan, f.next) !in s.holders;
    forall g, i
      ensures Follower(g, i) in t.holders <==> g in t.fans && i in t.fans[g].running
    {
      assert Follower(g, i) in s.holders <==> g in s.fans && i in s.fans[g].running;
    }
  }

  lemma ReleaseTokens(s: State, fan: FanId, i: nat)
    requires TokensHeld(s) && Enabled(s, Release(fan, i))
    ensures TokensHeld(Apply(s, Release(fan, i)))
  {
    var t := Apply(s, Release(fan, i));
    assert Follower(fan, i) in s.holders;
    assert |s.holders - {Follower(fan, i)}| == |s.holders| - 1;
    forall g, j
      ensures Follower(g, j) in t.holders <==> g in t.fans && j in t.fans[g].running
    {
      assert Follower(g, j) in s.holders <==> g in s.fans && j in s.fans[g].running;
    }
  }

  lemma OtherTokens(s: State, e: Step)
    requires TokensHeld(s) && Enabled(s, e)
    requires !e.Admit? && !e.Leave? && !e.Acquire? && !e.Release?
    ensures TokensHeld(Apply(s, e))
  {
    var t := Apply(s, e);
    assert t.holders == s.holders && t.tokens == s.tokens;
    assert forall job :: job in t.jobs <==> job in s.jobs;
    forall g, j
      ensures Follower(g, j) in t.holders <==> g in t.fans && j in t.fans[g].running
    {
      assert Follower(g, j) in s.holders <==> g in s.fans && j in s.fans[g].running;
    }
  }

  lemma StepTokens(s: State, e: Step)
    requires TokensHeld(s) && Enabled(s, e)
    requires forall fan | fan in s.fans :: FanFine(s.fans[fan])
    ensures TokensHeld(Apply(s, e))
  {
    match e
    case Admit(job, accept) => AdmitTokens(s, job, accept);
    case Leave(job) => LeaveTokens(s, job);
    case Acquire(fan) => AcquireTokens(s, fan);
    case Release(fan, i) => ReleaseTokens(s, fan, i);
    case _ => OtherTokens(s, e);
  }

  lemma StepFans(s: State, e: Step)
    requires forall fan | fan in s.fans :: FanFine(s.fans[fan])
    requires Enabled(s, e)
    ensures forall fan | fan in Apply(s, e).fans :: FanFine(Apply(s, e).fans[fan])
  {
    forall fan | fan in Apply(s, e).fans
      ensures FanFine(Apply(s, e).fans[fan])
    {
      if fan in s.fans {
        assert FanFine(s.fans[fan]);
      }
    }
  }

  lemma StepOrder(s: State, e: Step)
    requires AcceptOrder(s) && Enabled(s, e)
    ensures AcceptOrder(Apply(s, e))
  {
  }

  lemma {:induction false} RunInv(run: seq<State>, steps: seq<Step>, k: nat)
    requires IsRun(run, steps) && k < |run|
    ensures TokensHeld(run[k]) && AcceptOrder(run[k])
    ensures forall fan | fan in run[k].fans :: FanFine(run[k].fans[fan])
  {
    if k > 0 {
      RunInv(run, steps, k - 1);
      StepTokens(run[k - 1], steps[k - 1]);
      StepFans(run[k - 1], steps[k - 1]);
      StepOrder(run[k - 1], steps[k - 1]);
    }
  }

  // ---- main results, over every run ----

  /** Tokens taken are exactly the deliveries under way, and never more than the capacity. */
  lemma TokensAreDeliveries(run: seq<State>, steps: seq<Step>, k: nat)
    requires IsRun(run, steps) && k < |run|
    ensures run[k].tokens == |run[k].holders| <= MAX_INFLIGHT
    ensures forall job :: Inbox(job) in run[k].holders <==> job in run[k].jobs
    ensures forall fan, i :: Follower(fan, i) in run[k].holders <==> fan in run[k].fans && i in run[k].fans[fan].running
  {
    RunInv(run, steps, k);
  }

  /**
   How a holder's action turns out; an announcement may start federation, which opens the fan-out
   `update` to n followers, if that id is not in use.
   */
  datatype Outcome = Outcome(ok: bool, update: Option<FanId>, n: nat)

  /** The step with which a token holder gets on. */
  function HoldersStep(s: State, h: Holder, o: Outcome): Step {
    match h
    case Follower(fan, i) => Release(fan, i)
    case Inbox(job) =>
      if job !in s.jobs || s.jobs[job].Leaving? then Leave(job)
      else if s.jobs[job].Notifying? then
        Announce(job, if o.update.Some? && o.update.value in s.fans then None else o.update, o.n)
      else Advance(job, o.ok)
  }

  /** No token holder ever waits for a token: its own next step is possible however many are taken. */
  lemma HoldersNeverWait(run: seq<State>, steps: seq<Step>, k: nat, h: Holder, o: Outcome, taken: nat)
    requires IsRun(run, steps) && k < |run| && h in run[k].holders
    ensures Enabled(run[k].(tokens := taken), HoldersStep(run[k], h, o))
  {
    RunInv(run, steps, k);
    HolderCanStep(run[k], h, o);
  }

  lemma HolderCanStep(s: State, h: Holder, o: Outcome)
    requires TokensHeld(s) && h in s.holders
    ensures Enabled(s, HoldersStep(s, h, o)) && (h.Inbox? ==> h.job in s.jobs)
  {
    if h.Follower? {
      assert h == Follower(h.fan, h.index);
    } else {
      assert h == Inbox(h.job);
    }
  }

  /** How many steps of its own a holder is from giving its token back, at most. */
  function StepsLeft(s: State, h: Holder): nat {
    if h.Follower? || h.job !in s.jobs then 1
    else
      match s.jobs[h.job]
      case Resolving => 5
      case Posting => 4
      case Persisting => 3
      case Notifying => 2
      case Forwarding => 2
      case Leaving => 1
  }

  /** Where h's own steps alone lead, until it holds no token; None if that takes more steps than there are outcomes. */
  function LeftAlone(s: State, h: Holder, outcomes: seq<Outcome>): Option<State>
    decreases |outcomes|
  {
    if h !in s.holders then Some(s)
    else if outcomes == [] || !Enabled(s, HoldersStep(s, h, outcomes[0])) then None
    else LeftAlone(Apply(s, HoldersStep(s, h, outcomes[0])), h, outcomes[1..])
  }

  ghost predicate Good(s: State) {
    TokensHeld(s) && AcceptOrder(s) && forall fan | fan in s.fans :: FanFine(s.fans[fan])
  }

  lemma StepGood(s: State, e: Step)
    requires Good(s) && Enabled(s, e)
    ensures Good(Apply(s, e))
  {
    StepTokens(s, e);
    StepFans(s, e);
    StepOrder(s, e);
  }

  /** A fan-out's loop is in the same place. */
  predicate SameLoop(s: State, t: State, fan: FanId) {
    && fan in s.fans && fan in t.fans
    && s.fans[fan].(running := {}, released := {}) == t.fans[fan].(running := {}, released := {})
  }

  /** One step of h's own: it keeps its token and is nearer to giving it back, or gives it back. */
  predicate Nearer(s: State, t: State, h: Holder) {
    if h in t.holders then t.holders == s.holders && t.tokens == s.tokens && StepsLeft(t, h) < StepsLeft(s, h)
    else t.holders == s.holders - {h} && t.tokens == s.tokens - 1
  }

  lemma JobNearer(s: State, job: JobId, o: Outcome)
    requires job in s.jobs && Inbox(job) in s.holders && Enabled(s, HoldersStep(s, Inbox(job), o))
    ensures var t := Apply(s, HoldersStep(s, Inbox(job), o));
            Nearer(s, t, Inbox(job)) && forall g | g in s.fans :: SameLoop(s, t, g)
  {
  }

  lemma FollowerNearer(s: State, fan: FanId, i: nat)
    requires Follower(fan, i) in s.holders && Enabled(s, Release(fan, i))
    ensures Nearer(s, Apply(s, Release(fan, i)), Follower(fan, i))
    ensures forall g | g in s.fans :: SameLoop(s, Apply(s, Release(fan, i)), g)
  {
  }

  lemma HolderProgress(s: State, h: Holder, o: Outcome)
    requires Good(s) && h in s.holders
    ensures Enabled(s, HoldersStep(s, h, o))
    ensures var t := Apply(s, HoldersStep(s, h, o));
            Good(t) && Nearer(s, t, h) && forall fan | fan in s.fans :: SameLoop(s, t, fan)
  {
    HolderCanStep(s, h, o);
    StepGood(s, HoldersStep(s, h, o));
    match h
    case Inbox(job) => JobNearer(s, job, o);
    case Follower(fan, i) => FollowerNearer(s, fan, i);
  }

  /**
   A holder left to itself gives its token back after at most five steps of its own, however its
   actions turn out, and moves no fan-out's loop.
   */
  lemma {:induction false} HolderFinishes(s: State, h: Holder, outcomes: seq<Outcome>)
    requires Good(s) && h in s.holders && |outcomes| >= StepsLeft(s, h)
    ensures StepsLeft(s, h) <= 5
    ensures var t := LeftAlone(s, h, outcomes);
            && t.Some? && Good(t.value)
            && t.value.holders == s.holders - {h} && t.value.tokens == s.tokens - 1
            && forall fan | fan in s.fans :: SameLoop(s, t.value, fan)
    decreases |outcomes|
  {
    HolderProgress(s, h, outcomes[0]);
    var t := Apply(s, HoldersStep(s, h, outcomes[0]));
    if h in t.holders {
      HolderFinishes(t, h, outcomes[1..]);
      forall fan | fan in s.fans
        ensures SameLoop(s, LeftAlone(s, h, outcomes).value, fan)
      {
        assert SameLoop(s, t, fan);
      }
    }
  }

  /**
   A fan-out waiting for a token can take one now, or can once any holder has been left to itself
   for five of its own steps, so nobody waits forever on a full semaphore.
   */
  lemma WaiterGetsToken(run: seq<State>, steps: seq<Step>, k: nat, fan: FanId, h: Holder, outcomes: seq<Outcome>)
    requires IsRun(run, steps) && k < |run| && HasMore(run[k], fan) && |outcomes| >= 5
    ensures Enabled(run[k], Acquire(fan)) || run[k].holders != {}
    ensures h in run[k].holders ==>
              LeftAlone(run[k], h, outcomes).Some? && Enabled(LeftAlone(run[k], h, outcomes).value, Acquire(fan))
  {
    RunInv(run, steps, k);
    if h in run[k].holders {
      HolderFinishes(run[k], h, outcomes);
      assert SameLoop(run[k], LeftAlone(run[k], h, outcomes).value, fan);
    }
  }

  // ---- what becomes of a job ----

  /** The accepts a state has posted, tried to store and announced. */
  function Deeds(s: State): (set<JobId>, set<JobId>, set<JobId>) {
    (s.posted, s.persisted, s.notified)
  }

  /** Job's own step, and what is left after it. */
  lemma Unfolded(s: State, job: JobId, outcomes: seq<Outcome>)
    requires Good(s) && job in s.jobs && outcomes != []
    ensures Inbox(job) in s.holders && Enabled(s, HoldersStep(s, Inbox(job), outcomes[0]))
    ensures LeftAlone(s, Inbox(job), outcomes) ==
            LeftAlone(Apply(s, HoldersStep(s, Inbox(job), outcomes[0])), Inbox(job), outcomes[1..])
    ensures Good(Apply(s, HoldersStep(s, Inbox(job), outcomes[0])))
  {
    HolderProgress(s, Inbox(job), outcomes[0]);
  }

  lemma LeavingEnds(s: State, job: JobId, outcomes: seq<Outcome>)
    requires Good(s) && job in s.jobs && s.jobs[job].Leaving? && outcomes != []
    ensures var t := LeftAlone(s, Inbox(job), outcomes);
            t.Some? && Deeds(t.value) == Deeds(s) && t.value.fans == s.fans && t.value.jobs == s.jobs - {job}
  {
    Unfolded(s, job, outcomes);
    assert Inbox(job) !in Apply(s, Leave(job)).holders;
  }

  /** The fan-outs once an announcement has been made. */
  function Announced(s: State, o: Outcome): map<FanId, Fan> {
    if o.update.Some? && o.update.value !in s.fans
    then s.fans[o.update.value := Fan(o.n, 0, {}, {}, {}, false, Looping)] else s.fans
  }

  lemma NotifyingEnds(s: State, job: JobId, outcomes: seq<Outcome>)
    requires Good(s) && job in s.jobs && s.jobs[job].Notifying? && |outcomes| >= 2
    ensures var t := LeftAlone(s, Inbox(job), outcomes);
            && t.Some? && t.value.fans == Announced(s, outcomes[0])
            && Deeds(t.value) == (s.posted, s.persisted, s.notified + {job})
  {
    Unfolded(s, job, outcomes);
    LeavingEnds(Apply(s, HoldersStep(s, Inbox(job), outcomes[0])), job, outcomes[1..]);
  }

  lemma PersistingEnds(s: State, job: JobId, outcomes: seq<Outcome>)
    requires Good(s) && job in s.jobs && s.jobs[job].Persisting? && |outcomes| >= 3
    ensures var t := LeftAlone(s, Inbox(job), outcomes);
            && t.Some? && t.value.fans == Announced(s, outcomes[1])
            && Deeds(t.value) == (s.posted, s.persisted + {job}, s.notified + {job})
  {
    Unfolded(s, job, outcomes);
    NotifyingEnds(Apply(s, HoldersStep(s, Inbox(job), outcomes[0])), job, outcomes[1..]);
  }

  lemma PostingEnds(s: State, job: JobId, outcomes: seq<Outcome>)
    requires Good(s) && job in s.jobs && s.jobs[job].Posting? && |outcomes| >= 4
    ensures var t := LeftAlone(s, Inbox(job), outcomes);
            t.Some? &&
            if outcomes[0].ok then
              && t.value.fans == Announced(s, outcomes[2])
              && Deeds(t.value) == (s.posted + {job}, s.persisted + {job}, s.notified + {job})
            else t.value.fans == s.fans && Deeds(t.value) == Deeds(s)
  {
    Unfolded(s, job, outcomes);
    var t := Apply(s, HoldersStep(s, Inbox(job), outcomes[0]));
    if outcomes[0].ok {
      PersistingEnds(t, job, outcomes[1..]);
    } else {
      LeavingEnds(t, job, outcomes[1..]);
    }
  }

  /**
   An accept left alone: if its inbox resolves and the Accept is posted, it ends posted, with storing
   tried, whatever that gave, and announced, which opens the fan-out it starts; if either fails, it
   ends with none of the three.
   */
  lemma AcceptEnds(s: State, job: JobId, outcomes: seq<Outcome>)
    requires Good(s) && job in s.jobs && s.jobs[job].Resolving? && |outcomes| >= 5
    ensures var t := LeftAlone(s, Inbox(job), outcomes);
            t.Some? && job !in s.posted + s.persisted + s.notified &&
            if outcomes[0].ok && outcomes[1].ok then
              && t.value.fans == Announced(s, outcomes[3])
              && Deeds(t.value) == (s.posted + {job}, s.persisted + {job}, s.notified + {job})
            else t.value.fans == s.fans && Deeds(t.value) == Deeds(s)
  {
    Unfolded(s, job, outcomes);
    var t := Apply(s, HoldersStep(s, Inbox(job), outcomes[0]));
    if outcomes[0].ok {
      PostingEnds(t, job, outcomes[1..]);
    } else {
      LeavingEnds(t, job, outcomes[1..]);
    }
  }

  /** A forwarded activity left alone ends with none of the three. */
  lemma ForwardEnds(s: State, job: JobId, outcomes: seq<Outcome>)
    requires Good(s) && job in s.jobs && s.jobs[job].Forwarding? && |outcomes| >= 2
    ensures var t := LeftAlone(s, Inbox(job), outcomes);
            t.Some? && t.value.fans == s.fans && Deeds(t.value) == Deeds(s)
  {
    Unfolded(s, job, outcomes);
    LeavingEnds(Apply(s, HoldersStep(s, Inbox(job), outcomes[0])), job, outcomes[1..]);
  }

  /** An admitted request left alone: a Follow goes the way of an accept, anything else is only forwarded. */
  lemma AdmittedEnds(s: State, job: JobId, accept: bool, outcomes: seq<Outcome>)
    requires Good(s) && Enabled(s, Admit(job, accept)) && |outcomes| >= 5
    ensures var t := LeftAlone(Apply(s, Admit(job, accept)), Inbox(job), outcomes);
            t.Some? && job !in s.posted + s.persisted + s.notified &&
            Deeds(t.value) == if accept && outcomes[0].ok && outcomes[1].ok
                              then (s.posted + {job}, s.persisted + {job}, s.notified + {job}) else Deeds(s)
  {
    StepGood(s, Admit(job, accept));
    if accept {
      AcceptEnds(Apply(s, Admit(job, accept)), job, outcomes);
    } else {
      ForwardEnds(Apply(s, Admit(job, accept)), job, outcomes);
    }
  }

  /** Step i is the success of a job's action at the given stage. */
  predicate Succeeded(run: seq<State>, steps: seq<Step>, i: nat, job: JobId, stage: Stage)
    requires |run| == |steps| + 1
  {
    i < |steps| && steps[i] == Advance(job, true) && job in run[i].jobs && run[i].jobs[job] == stage
  }

  /** Before step k the job was admitted for a Follow, then its inbox resolved, then its Accept posted. */
  ghost predicate WasPosted(run: seq<State>, steps: seq<Step>, k: nat, job: JobId)
    requires |run| == |steps| + 1
  {
    exists a: nat, i: nat, j: nat ::
      && a < i < j < k && a < |steps| && steps[a] == Admit(job, true)
      && Succeeded(run, steps, i, job, Resolving) && Succeeded(run, steps, j, job, Posting)
  }

  lemma {:induction false} ResolvingWasAdmitted(run: seq<State>, steps: seq<Step>, k: nat, job: JobId) returns (a: nat)
    requires IsRun(run, steps) && k < |run| && job in run[k].jobs && run[k].jobs[job].Resolving?
    ensures a < k && steps[a] == Admit(job, true)
  {
    if job in run[k - 1].jobs && run[k - 1].jobs[job].Resolving? {
      a := ResolvingWasAdmitted(run, steps, k - 1, job);
    } else {
      a := k - 1;
    }
  }

  lemma {:induction false} PostingWasResolved(run: seq<State>, steps: seq<Step>, k: nat, job: JobId) returns (i: nat)
    requires IsRun(run, steps) && k < |run| && job in run[k].jobs && run[k].jobs[job].Posting?
    ensures i < k && Succeeded(run, steps, i, job, Resolving)
  {
    if job in run[k - 1].jobs && run[k - 1].jobs[job].Posting? {
      i := PostingWasResolved(run, steps, k - 1, job);
    } else {
      i := k - 1;
    }
  }

  /**
   In every run an Accept counts as delivered exactly when a Follow was admitted, its inbox was then
   resolved, and then it was posted.
   */
  lemma {:induction false} PostedExactly(run: seq<State>, steps: seq<Step>, k: nat, job: JobId)
    requires IsRun(run, steps) && k < |run|
    ensures job in run[k].posted <==> WasPosted(run, steps, k, job)
  {
    if k > 0 {
      PostedExactly(run, steps, k - 1, job);
      PostedByStep(run[k - 1], steps[k - 1], job);
      WasPostedByStep(run, steps, k, job);
    }
  }

  lemma PostedByStep(s: State, e: Step, job: JobId)
    requires Enabled(s, e)
    ensures job in Apply(s, e).posted <==>
            job in s.posted || (e == Advance(job, true) && job in s.jobs && s.jobs[job].Posting?)
  {
  }

  lemma WasPostedByStep(run: seq<State>, steps: seq<Step>, k: nat, job: JobId)
    requires IsRun(run, steps) && 0 < k < |run|
    ensures WasPosted(run, steps, k, job) <==>
            WasPosted(run, steps, k - 1, job) || Succeeded(run, steps, k - 1, job, Posting)
  {
    if Succeeded(run, steps, k - 1, job, Posting) {
      var i := PostingWasResolved(run, steps, k - 1, job);
      var a := ResolvingWasAdmitted(run, steps, i, job);
      assert a < i < k - 1 < k;
    }
  }

  /** Step j opened the fan-out over n followers. */
  predicate Opens(e: Step, fan: FanId, n: nat) {
    e == Open(fan, n) || (e.Announce? && e.update == Some(fan) && e.n == n)
  }

  /** A fan-out is always over the followers it was opened for. */
  lemma {:induction false} OpenedFor(run: seq<State>, steps: seq<Step>, k: nat, fan: FanId) returns (j: nat)
    requires IsRun(run, steps) && k < |run| && fan in run[k].fans
    ensures j < k && Opens(steps[j], fan, run[k].fans[fan].n)
  {
    if fan in run[k - 1].fans {
      j := OpenedFor(run, steps, k - 1, fan);
    } else {
      j := k - 1;
    }
  }

  /**
   When a fan-out has returned, every delivery it launched has settled; the followers it attempted
   are a prefix of the list, and all of it unless it was cancelled.
   */
  lemma ReturnedMeansSettled(run: seq<State>, steps: seq<Step>, k: nat, fan: FanId)
    requires IsRun(run, steps) && k < |run| && fan in run[k].fans && run[k].fans[fan].phase.Returned?
    ensures var f := run[k].fans[fan];
            f.running == {} && f.released == {} && f.settled == Range(f.next) && f.next <= f.n &&
            (f.next == f.n || f.cancelled)
  {
    RunInv(run, steps, k);
    assert FanFine(run[k].fans[fan]);
  }

  /** A follower is announced only after storing it was tried, and that only after its Accept was delivered. */
  lemma AcceptBeforeFollower(run: seq<State>, steps: seq<Step>, k: nat)
    requires IsRun(run, steps) && k < |run|
    ensures run[k].notified <= run[k].persisted <= run[k].posted
    ensures forall job | job in run[k].posted && job !in run[k].jobs :: job in run[k].notified
  {
    RunInv(run, steps, k);
    PostedStay(run, steps, k);
  }

  /** Every delivered Accept is carried through to the announcement. */
  ghost predicate Carried(s: State) {
    forall job | job in s.posted && job !in s.jobs :: job in s.notified
  }

  lemma StepCarried(s: State, e: Step)
    requires AcceptOrder(s) && Carried(s) && Enabled(s, e)
    ensures Carried(Apply(s, e))
  {
  }

  lemma {:induction false} PostedStay(run: seq<State>, steps: seq<Step>, k: nat)
    requires IsRun(run, steps) && k < |run|
    ensures Carried(run[k])
  {
    if k > 0 {
      PostedStay(run, steps, k - 1);
      RunInv(run, steps, k - 1);
      StepCarried(run[k - 1], steps[k - 1]);
    }
  }
}
