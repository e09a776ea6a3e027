/**
 tryMembers on a clock. Every candidate has a fixed but arbitrary behaviour
 (how long it takes and what it then answers); goroutines and timers are prompt,
 so time passes only while nothing is due. Times are milliseconds.
 */
module HedgeTiming {
  import opened Basics
  import opened HedgedRequest

  const REQUEST_TIMEOUT := 40000
  const PER_PEER_TIMEOUT := 15000
  const HEDGE_DELAY := 2000

  datatype Behaviour = Behaviour(latency: nat, outcome: Outcome)

  /** An attempt is cut off by its own timeout, whatever the peer would have said. */
  function Duration(b: Behaviour): nat {
    if b.latency < PER_PEER_TIMEOUT then b.latency else PER_PEER_TIMEOUT
  }

  function Ending(b: Behaviour): Outcome {
    if b.latency < PER_PEER_TIMEOUT then b.outcome else Failed("context deadline exceeded")
  }

  /** budget is what is left of the request's timeout when the call starts: a refresh may have used some. */
  datatype World = World(cfg: Config, peers: seq<Behaviour>, budget: nat)

  datatype Timed = Timed(
    s: State,
    now: int,
    hedgeAt: int,        // when the armed hedge timer fires
    started: seq<int>)   // launch time of each launched candidate

  datatype TimedStep = Act(step: Step) | Delay(d: nat)

  ghost predicate ValidWorld(w: World) {
    |w.peers| == w.cfg.n && w.budget <= REQUEST_TIMEOUT
  }

  function TimedInit(w: World): Timed {
    Timed(Init(w.cfg), 0, HEDGE_DELAY, if w.cfg.n > 0 then [0] else [])
  }

  /** When candidate i's attempt ends. */
  function EndsAt(w: World, t: Timed, i: nat): int
    requires i < |t.started| && i < |w.peers|
  {
    t.started[i] + Duration(w.peers[i])
  }

  ghost predicate Due(w: World, t: Timed, e: Step) {
    && Enabled(w.cfg, t.s, e)
    && match e
       case Send(i, o) =>
         t.s.verdict.None? ==>
           i < |t.started| && i < |w.peers| && o == Ending(w.peers[i]) && t.now == EndsAt(w, t, i)
       case Receive => true
       case HedgeTick => t.now == t.hedgeAt
       case Deadline => t.now >= w.budget
  }

  /** Time may pass to now + d only if nothing is due on the way. */
  ghost predicate MayDelay(w: World, t: Timed, d: nat) {
    && 0 < d
    && (t.s.verdict.None? ==>
          && t.s.replies == []
          && t.now + d <= w.budget
          && (w.cfg.read ==> t.now + d <= t.hedgeAt)
          && forall i: nat | i < |t.s.attempts| && i < |t.started| && i < |w.peers| && t.s.attempts[i].Running? ::
               t.now + d <= EndsAt(w, t, i))
  }

  ghost predicate TimedEnabled(w: World, t: Timed, e: TimedStep) {
    match e
    case Act(step) => Due(w, t, step)
    case Delay(d) => MayDelay(w, t, d)
  }

  ghost function TimedApply(w: World, t: Timed, e: TimedStep): Timed
    requires TimedEnabled(w, t, e)
  {
    match e
    case Delay(d) => t.(now := t.now + d)
    case Act(step) =>
      var s := Apply(w.cfg, t.s, step);
      t.(s := s,
         hedgeAt := if step.HedgeTick? then t.now + HEDGE_DELAY else t.hedgeAt,
         started := if s.next > t.s.next then t.started + [t.now] else t.started)
  }

  ghost predicate IsTimedRun(w: World, run: seq<Timed>, steps: seq<TimedStep>) {
    && ValidWorld(w) && |run| == |steps| + 1 && run[0] == TimedInit(w)
    && forall k | 0 <= k < |steps| ::
         TimedEnabled(w, run[k], steps[k]) && run[k + 1] == TimedApply(w, run[k], steps[k])
  }

  // ---- what every timed state keeps ----

  ghost predicate Shape(w: World, t: Timed) {
    && ValidWorld(w) && Inv(w.cfg, t.s) && |t.started| == t.s.next
    && (t.s.verdict.None? ==> t.now <= w.budget)
  }

  /** How far the hedge timer has come: k ticks so far put its next firing at (k + 1) delays. */
  ghost predicate Ticks(w: World, t: Timed, k: nat) {
    && t.hedgeAt == HEDGE_DELAY * (k + 1)
    && (t.s.verdict.None? && w.cfg.read ==>
          && HEDGE_DELAY * k <= t.now <= t.hedgeAt
          && (t.s.next < w.cfg.n ==> k + 1 <= t.s.next))
  }

  ghost predicate Starts(w: World, t: Timed)
    requires Shape(w, t)
  {
    w.cfg.read ==> forall i: nat | i < t.s.next :: t.started[i] <= HEDGE_DELAY * i
  }

  /** Attempt i is not overdue, and its reply, if still unread, was sent this very instant. */
  ghost predicate PunctualAt(w: World, t: Timed, i: nat)
    requires i < |t.s.attempts| && i < |t.started| && i < |w.peers|
  {
    match t.s.attempts[i]
    case Idle => true
    case Running => t.s.verdict.None? ==> t.now <= EndsAt(w, t, i)
    case Queued(o) => t.s.verdict.None? ==> o == Ending(w.peers[i]) && t.now == EndsAt(w, t, i)
    case Consumed(o) => o == Ending(w.peers[i])
  }

  ghost predicate Punctual(w: World, t: Timed)
    requires Shape(w, t)
  {
    forall i: nat | i < t.s.next :: PunctualAt(w, t, i)
  }

  lemma InitTimed(w: World)
    requires ValidWorld(w)
    ensures Shape(w, TimedInit(w)) && Ticks(w, TimedInit(w), 0)
    ensures Starts(w, TimedInit(w)) && Punctual(w, TimedInit(w))
  {
    InitInv(w.cfg);
  }

  lemma ShapeStep(w: World, t: Timed, e: TimedStep)
    requires Shape(w, t) && TimedEnabled(w, t, e)
    ensures Shape(w, TimedApply(w, t, e))
  {
    if e.Act? {
      StepInv(w.cfg, t.s, e.step);
    }
  }

  lemma TicksStep(w: World, t: Timed, e: TimedStep, k: nat)
    requires Shape(w, t) && Ticks(w, t, k) && TimedEnabled(w, t, e)
    ensures Ticks(w, TimedApply(w, t, e), if e == Act(HedgeTick) then k + 1 else k)
  {
  }

  lemma StartsStep(w: World, t: Timed, e: TimedStep, k: nat)
    requires Shape(w, t) && Starts(w, t) && Ticks(w, t, k) && TimedEnabled(w, t, e)
    requires Shape(w, TimedApply(w, t, e))
    ensures Starts(w, TimedApply(w, t, e))
  {
    var u := TimedApply(w, t, e);
    if w.cfg.read && u.s.next > t.s.next {
      assert u.s.next == t.s.next + 1 && t.now <= HEDGE_DELAY * t.s.next;
    }
  }

  /** What a step does to one attempt. */
  lemma AttemptStep(c: Config, s: State, e: Step, i: nat)
    requires Launched(c, s) && Enabled(c, s, e) && i < c.n
    ensures var t := Apply(c, s, e);
            && |t.attempts| == c.n && (t.verdict.None? ==> s.verdict.None?)
            && (|| t.attempts[i] == s.attempts[i]
                || (s.attempts[i].Idle? && t.attempts[i].Running?)
                || (s.attempts[i].Running? && e.Send? && e.i == i && t.attempts[i] == Queued(e.outcome))
                || (s.verdict.None? && s.attempts[i].Queued? && t.attempts[i] == Consumed(s.attempts[i].outcome)))
  {
  }

  lemma ActPunctual(w: World, t: Timed, e: Step, i: nat)
    requires Shape(w, t) && Due(w, t, e) && Shape(w, TimedApply(w, t, Act(e)))
    requires i < TimedApply(w, t, Act(e)).s.next
    requires i < t.s.next ==> PunctualAt(w, t, i)
    ensures PunctualAt(w, TimedApply(w, t, Act(e)), i)
  {
    var u := TimedApply(w, t, Act(e));
    AttemptStep(w.cfg, t.s, e, i);
    assert u.now == t.now && u.s == Apply(w.cfg, t.s, e);
    if i < t.s.next {
      assert u.started[i] == t.started[i];
    } else {
      assert t.s.attempts[i].Idle? && u.started[i] == t.now;
    }
  }

  lemma PunctualStep(w: World, t: Timed, e: TimedStep)
    requires Shape(w, t) && Punctual(w, t) && TimedEnabled(w, t, e)
    requires Shape(w, TimedApply(w, t, e))
    ensures Punctual(w, TimedApply(w, t, e))
  {
    var u := TimedApply(w, t, e);
    forall i: nat | i < u.s.next
      ensures PunctualAt(w, u, i)
    {
      match e
      case Act(step) => ActPunctual(w, t, step, i);
      case Delay(d) => assert PunctualAt(w, t, i);
    }
  }

  lemma {:induction false} TimedRunInv(w: World, run: seq<Timed>, steps: seq<TimedStep>, m: nat) returns (ticks: nat)
    requires IsTimedRun(w, run, steps) && m < |run|
    ensures Shape(w, run[m]) && Ticks(w, run[m], ticks) && Starts(w, run[m]) && Punctual(w, run[m])
  {
    if m == 0 {
      InitTimed(w);
      ticks := 0;
    } else {
      ticks := TimedRunInv(w, run, steps, m - 1);
      var t, e := run[m - 1], steps[m - 1];
      ShapeStep(w, t, e);
      TicksStep(w, t, e, ticks);
      StartsStep(w, t, e, ticks);
      PunctualStep(w, t, e);
      ticks := if e == Act(HedgeTick) then ticks + 1 else ticks;
    }
  }

  // ---- main results ----

  /**
   A read that is still undecided has raced at least one candidate per elapsed hedge delay:
   min(n, 1 + now / HEDGE_DELAY) of them once the tick due at this instant has fired.
   */
  lemma HedgingRate(w: World, run: seq<Timed>, steps: seq<TimedStep>, m: nat)
    requires IsTimedRun(w, run, steps) && m < |run|
    requires w.cfg.read && run[m].s.verdict.None? && run[m].now < run[m].hedgeAt
    ensures run[m].s.next >= w.cfg.n || run[m].s.next >= 1 + run[m].now / HEDGE_DELAY
  {
    var ticks := TimedRunInv(w, run, steps, m);
    assert run[m].now / HEDGE_DELAY == ticks;
  }

  /** Candidate k answers usably, within its own timeout and what is left of the request's. */
  ghost predicate Answers(w: World, k: nat) {
    && ValidWorld(w) && k < w.cfg.n && w.cfg.read
    && w.peers[k].latency < PER_PEER_TIMEOUT && w.peers[k].outcome.Usable()
    && HEDGE_DELAY * k + w.peers[k].latency < w.budget
  }

  lemma DecidedInTime(w: World, run: seq<Timed>, steps: seq<TimedStep>, m: nat, k: nat)
    requires IsTimedRun(w, run, steps) && m < |run| && Answers(w, k)
    requires run[m].now > HEDGE_DELAY * k + w.peers[k].latency
    ensures run[m].s.verdict.Some?
  {
    var ticks := TimedRunInv(w, run, steps, m);
    var t := run[m];
    if t.s.verdict.None? {
      assert k < t.s.next;
      assert t.started[k] <= HEDGE_DELAY * k;
      assert PunctualAt(w, t, k);
      assert !t.s.attempts[k].Idle?;
    }
  }

  /**
   If candidate k answers after latency ms, the call has succeeded once k hedge delays and that
   latency have passed, in every run and whatever the other candidates do.
   */
  lemma {:induction false} SucceedsInTime(w: World, run: seq<Timed>, steps: seq<TimedStep>, m: nat, k: nat)
    requires IsTimedRun(w, run, steps) && m < |run| && Answers(w, k)
    ensures run[m].s.verdict.None? || run[m].s.verdict.value.Success?
    ensures run[m].now > HEDGE_DELAY * k + w.peers[k].latency ==> run[m].s.verdict.Some?
  {
    var _ := TimedRunInv(w, run, steps, m);
    if k < run[m].s.next {
      assert PunctualAt(w, run[m], k);
    }
    if run[m].now > HEDGE_DELAY * k + w.peers[k].latency {
      DecidedInTime(w, run, steps, m, k);
    }
    if m > 0 {
      SucceedsInTime(w, run, steps, m - 1, k);
    }
  }

  /** The clock never jams: an undecided call has something due or time may pass. */
  lemma TimeOrAction(w: World, run: seq<Timed>, steps: seq<TimedStep>, m: nat)
    requires IsTimedRun(w, run, steps) && m < |run| && run[m].s.verdict.None?
    ensures MayDelay(w, run[m], 1) || exists e :: Due(w, run[m], e)
  {
    var _ := TimedRunInv(w, run, steps, m);
    var t := run[m];
    if !MayDelay(w, t, 1) {
      if t.s.replies != [] {
        assert Due(w, t, Receive);
      } else if t.now + 1 > w.budget {
        assert Due(w, t, Deadline);
      } else if w.cfg.read && t.now + 1 > t.hedgeAt {
        assert Due(w, t, HedgeTick);
      } else {
        var i: nat :| i < |t.s.attempts| && i < |t.started| && i < |w.peers| && t.s.attempts[i].Running? &&
                      t.now + 1 > EndsAt(w, t, i);
        assert PunctualAt(w, t, i);
        assert Due(w, t, Send(i, Ending(w.peers[i])));
      }
    }
  }

  /**
   An attempt runs for its own timeout at most, whatever the call still has; the winner is a candidate
   that answered within it, and a call fails on everyone only if each was too slow or of no use.
   */
  lemma AttemptsAreTimed(w: World, run: seq<Timed>, steps: seq<TimedStep>, m: nat, i: nat)
    requires IsTimedRun(w, run, steps) && m < |run| && i < w.cfg.n
    ensures var t := run[m];
            && |t.s.attempts| == w.cfg.n && (i < |t.started| || t.s.attempts[i].Idle?)
            && (t.s.verdict.None? && t.s.attempts[i].Running? ==> t.now <= t.started[i] + PER_PEER_TIMEOUT)
            && (forall b :: t.s.verdict == Some(Success(i, b)) ==>
                  w.peers[i].latency < PER_PEER_TIMEOUT && w.peers[i].outcome == Answered(b) && !b.rateLimited)
            && (t.s.verdict.Some? && t.s.verdict.value.FailedOnAll? ==>
                  w.peers[i].latency >= PER_PEER_TIMEOUT || !w.peers[i].outcome.Usable())
  {
    var ticks := TimedRunInv(w, run, steps, m);
    if i < run[m].s.next {
      assert PunctualAt(w, run[m], i);
    }
  }
}
