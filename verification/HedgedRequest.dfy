/**
 One call of nodeClient.tryMembers as a state machine: the select loop, the
 attempt goroutines it starts, the buffered reply channel between them, the
 hedge timer and the request deadline. A run is any interleaving of them.
 */
module HedgedRequest {
  import opened Basics

  const RATE_LIMITED := "node rate limited this route"
  const NO_MEMBERS := "no reachable member nodes"

  /** A response body; rateLimited is what isRateLimited reads off its JSON code. */
  datatype Body = Body(text: string, rateLimited: bool)

  datatype Outcome = Failed(reason: string) | Answered(body: Body) {
    predicate Usable() {
      Answered? && !body.rateLimited
    }

    function Reason(): string {
      if Failed? then reason else RATE_LIMITED
    }
  }

  datatype Attempt = Idle | Running | Queued(outcome: Outcome) | Consumed(outcome: Outcome) {
    predicate Outstanding() {
      Running? || Queued?
    }

    /** Its reply was consumed and was an error or a rate limit. */
    predicate Useless() {
      Consumed? && !outcome.Usable()
    }

    function Rank(): nat {
      match this
      case Idle => 0
      case Running => 1
      case Queued(_) => 2
      case Consumed(_) => 3
    }
  }

  datatype Verdict = Success(index: nat, body: Body) | TimedOut | FailedOnAll(reason: string)

  /** n candidates; read routes arm the hedge timer, write routes stop it. */
  datatype Config = Config(n: nat, read: bool)

  datatype State = State(
    attempts: seq<Attempt>,   // one per candidate
    replies: seq<nat>,        // the reply channel, oldest first
    log: seq<nat>,            // candidates whose reply the loop consumed, in order
    next: nat,
    inFlight: int,
    lastErr: Option<string>,
    verdict: Option<Verdict>) // None while the loop runs

  datatype Step = Send(i: nat, outcome: Outcome) | Receive | HedgeTick | Deadline

  // ---- the code ----

  function LaunchNext(s: State): State {
    if s.next < |s.attempts| then
      s.(attempts := s.attempts[s.next := Running], next := s.next + 1, inFlight := s.inFlight + 1)
    else s
  }

  /** The loop guard: with nothing in flight the call has failed on everyone. */
  function LoopGuard(s: State): State {
    if s.inFlight > 0 then s
    else s.(verdict := Some(FailedOnAll(if s.lastErr.Some? then s.lastErr.value else NO_MEMBERS)))
  }

  function Init(c: Config): State {
    LoopGuard(LaunchNext(State(seq(c.n, _ => Idle), [], [], 0, 0, None, None)))
  }

  predicate Enabled(c: Config, s: State, e: Step) {
    match e
    case Send(i, _) => i < |s.attempts| && s.attempts[i].Running? && |s.replies| < c.n
    case Receive =>
      s.verdict.None? && |s.replies| > 0 &&
      s.replies[0] < |s.attempts| && s.attempts[s.replies[0]].Queued?
    case HedgeTick => s.verdict.None? && c.read
    case Deadline => s.verdict.None?
  }

  /** The state after the loop took one reply, before it acts on it. */
  function Taken(s: State): State
    requires |s.replies| > 0 && s.replies[0] < |s.attempts| && s.attempts[s.replies[0]].Queued?
  {
    var i := s.replies[0];
    s.(attempts := s.attempts[i := Consumed(s.attempts[i].outcome)], replies := s.replies[1..],
       log := s.log + [i], inFlight := s.inFlight - 1)
  }

  function Apply(c: Config, s: State, e: Step): State
    requires Enabled(c, s, e)
  {
    match e
    case Send(i, o) => s.(attempts := s.attempts[i := Queued(o)], replies := s.replies + [i])
    case Receive =>
      var i := s.replies[0];
      var o := s.attempts[i].outcome;
      var t := Taken(s);
      if o.Usable() then t.(verdict := Some(Success(i, o.body)))
      else LoopGuard(LaunchNext(t.(lastErr := Some(o.Reason()))))
    case HedgeTick => LaunchNext(s)
    case Deadline => s.(verdict := Some(TimedOut))
  }

  /** A run: the states passed through and the steps taken between them. */
  ghost predicate IsRun(c: Config, run: seq<State>, steps: seq<Step>) {
    && |run| == |steps| + 1 && run[0] == Init(c)
    && forall k | 0 <= k < |steps| :: Enabled(c, run[k], steps[k]) && run[k + 1] == Apply(c, run[k], steps[k])
  }

  /** The state a sequence of steps leads to; None when some step was not possible. */
  function After(c: Config, steps: seq<Step>): Option<State> {
    if steps == [] then Some(Init(c))
    else
      var before := After(c, steps[..|steps| - 1]);
      if before.Some? && Enabled(c, before.value, steps[|steps| - 1])
      then Some(Apply(c, before.value, steps[|steps| - 1])) else None
  }

  lemma {:induction false} AfterIsARun(c: Config, steps: seq<Step>) returns (run: seq<State>)
    requires After(c, steps).Some?
    ensures IsRun(c, run, steps) && Some(run[|steps|]) == After(c, steps)
  {
    if steps == [] {
      run := [Init(c)];
    } else {
      var shorter := steps[..|steps| - 1];
      var r := AfterIsARun(c, shorter);
      run := r + [After(c, steps).value];
      forall k | 0 <= k < |steps|
        ensures Enabled(c, run[k], steps[k]) && run[k + 1] == Apply(c, run[k], steps[k])
      {
        if k < |shorter| {
          assert steps[k] == shorter[k] && run[k] == r[k] && run[k + 1] == r[k + 1];
        }
      }
    }
  }

  // ---- what every state keeps ----

  function Outstanding(s: State): set<nat> {
    set i: nat | i < |s.attempts| && s.attempts[i].Outstanding()
  }

  /** Everything consumed so far was an error or a rate limit, but perhaps for one. */
  ghost predicate OnlyUseless(s: State, but: Option<nat>) {
    forall i: nat | i < |s.attempts| && s.attempts[i].Consumed? ::
      but == Some(i) || !s.attempts[i].outcome.Usable()
  }

  ghost predicate Launched(c: Config, s: State) {
    && |s.attempts| == c.n && s.next <= c.n
    && (forall i: nat | i < c.n :: s.attempts[i].Idle? <==> s.next <= i)
  }

  ghost predicate ChannelInv(c: Config, s: State) {
    && |s.attempts| == c.n
    && Distinct(s.replies) && Distinct(s.log)
    && (forall k | 0 <= k < |s.replies| :: s.replies[k] < c.n && s.attempts[s.replies[k]].Queued?)
    && (forall k | 0 <= k < |s.log| :: s.log[k] < c.n && s.attempts[s.log[k]].Consumed?)
    && (forall i: nat | i < c.n && s.attempts[i].Queued? :: i in s.replies)
    && (forall i: nat | i < c.n && s.attempts[i].Consumed? :: i in s.log)
  }

  ghost predicate Accounting(c: Config, s: State)
    requires Launched(c, s)
  {
    && s.inFlight == s.next - |s.log|
    && (!c.read ==> s.inFlight <= 1)
    && (s.verdict.None? ==> s.inFlight > 0)
    && (s.log == [] ==> s.lastErr.None?)
    && (s.log != [] && !s.verdict.Some? ==> s.lastErr == LastReason(s))
  }

  /** The reason of the reply consumed last. */
  function LastReason(s: State): Option<string> {
    if s.log == [] then None
    else
      var i := s.log[|s.log| - 1];
      if i < |s.attempts| && s.attempts[i].Consumed? then Some(s.attempts[i].outcome.Reason()) else None
  }

  ghost predicate VerdictInv(c: Config, s: State) {
    && |s.attempts| == c.n
    && match s.verdict
       case None => OnlyUseless(s, None)
       case Some(TimedOut) => OnlyUseless(s, None)
       case Some(Success(i, b)) =>
         && i < c.n && s.attempts[i] == Consumed(Answered(b)) && !b.rateLimited
         && OnlyUseless(s, Some(i))
       case Some(FailedOnAll(r)) =>
         && s.next == c.n
         && (forall i: nat | i < c.n :: s.attempts[i].Consumed?)
         && OnlyUseless(s, None)
         && (if c.n == 0 then r == NO_MEMBERS else LastReason(s) == Some(r))
  }

  /** A write launches candidate i + 1 only after i proved useless, and then at once. */
  ghost predicate SerialInv(c: Config, s: State)
    requires Launched(c, s)
  {
    !c.read ==>
      && (forall i: nat | i + 1 < s.next :: s.attempts[i].Useless())
      && (s.next < c.n ==> s.next > 0 && !s.attempts[s.next - 1].Useless())
  }

  ghost predicate Inv(c: Config, s: State) {
    Launched(c, s) && ChannelInv(c, s) && Accounting(c, s) && SerialInv(c, s) && VerdictInv(c, s)
  }

  lemma InitInv(c: Config)
    ensures Inv(c, Init(c))
  {
  }

  lemma TakenInv(c: Config, s: State)
    requires Inv(c, s) && Enabled(c, s, Receive)
    ensures Launched(c, Taken(s)) && ChannelInv(c, Taken(s))
    ensures Taken(s).inFlight == s.next - |Taken(s).log|
    ensures OnlyUseless(Taken(s), Some(s.replies[0]))
  {
    var i, t := s.replies[0], Taken(s);
    assert i !in s.log;
    assert forall j: nat | j in s.replies && j != i :: j in t.replies by {
      assert s.replies == [i] + t.replies;
    }
    assert forall k: nat | k < c.n && k != i :: t.attempts[k] == s.attempts[k];
  }

  lemma LaunchInv(c: Config, s: State)
    requires Launched(c, s) && ChannelInv(c, s) && OnlyUseless(s, None)
    ensures Launched(c, LaunchNext(s)) && ChannelInv(c, LaunchNext(s)) && OnlyUseless(LaunchNext(s), None)
    ensures LastReason(LaunchNext(s)) == LastReason(s)
  {
    var t := LaunchNext(s);
    assert forall k: nat | k < c.n && k != s.next :: t.attempts[k] == s.attempts[k];
  }

  lemma ReceiveAccounting(c: Config, s: State)
    requires Inv(c, s) && Enabled(c, s, Receive)
    ensures Launched(c, Apply(c, s, Receive)) && ChannelInv(c, Apply(c, s, Receive))
    ensures Accounting(c, Apply(c, s, Receive))
  {
    TakenInv(c, s);
    var o := s.attempts[s.replies[0]].outcome;
    if !o.Usable() {
      LaunchInv(c, Taken(s).(lastErr := Some(o.Reason())));
    }
  }

  lemma ReceiveSerial(c: Config, s: State)
    requires Launched(c, s) && SerialInv(c, s) && Enabled(c, s, Receive) && Launched(c, Apply(c, s, Receive))
    ensures SerialInv(c, Apply(c, s, Receive))
  {
    if !c.read {
      assert s.replies[0] == s.next - 1;
    }
  }

  lemma ReceiveVerdict(c: Config, s: State)
    requires Inv(c, s) && Enabled(c, s, Receive)
    ensures VerdictInv(c, Apply(c, s, Receive))
  {
    TakenInv(c, s);
    var i := s.replies[0];
    var o := s.attempts[i].outcome;
    if !o.Usable() {
      var failed := Taken(s).(lastErr := Some(o.Reason()));
      assert failed.log[|failed.log| - 1] == i;
      LaunchInv(c, failed);
      if LaunchNext(failed).inFlight <= 0 {
        AllConsumed(c, LaunchNext(failed));
      }
    }
  }

  /** With nothing in flight, every candidate was launched and consumed. */
  lemma AllConsumed(c: Config, s: State)
    requires Launched(c, s) && ChannelInv(c, s)
    requires s.inFlight == s.next - |s.log| && s.inFlight <= 0
    ensures forall i: nat | i < s.next :: s.attempts[i].Consumed?
  {
    forall i: nat | i < s.next
      ensures s.attempts[i].Consumed?
    {
      if i !in s.log {
        assert forall k | 0 <= k < |s.log| :: s.log[k] < s.next;
        DistinctBelow(s.log + [i], s.next);
      }
    }
  }

  lemma SendInv(c: Config, s: State, i: nat, o: Outcome)
    requires Inv(c, s) && Enabled(c, s, Send(i, o))
    ensures Inv(c, Apply(c, s, Send(i, o)))
  {
    SendChannel(c, s, i, o);
    SendVerdict(c, s, i, o);
  }

  lemma SendChannel(c: Config, s: State, i: nat, o: Outcome)
    requires Launched(c, s) && ChannelInv(c, s) && Enabled(c, s, Send(i, o))
    ensures Launched(c, Apply(c, s, Send(i, o))) && ChannelInv(c, Apply(c, s, Send(i, o)))
  {
    var t := Apply(c, s, Send(i, o));
    assert i !in s.replies;
    assert forall j :: j in t.replies <==> j in s.replies || j == i;
    assert forall k: nat | k < c.n && k != i :: t.attempts[k] == s.attempts[k];
  }

  lemma SendVerdict(c: Config, s: State, i: nat, o: Outcome)
    requires Inv(c, s) && Enabled(c, s, Send(i, o)) && Launched(c, Apply(c, s, Send(i, o)))
    ensures var t := Apply(c, s, Send(i, o)); Accounting(c, t) && SerialInv(c, t) && VerdictInv(c, t)
  {
    var t := Apply(c, s, Send(i, o));
    assert forall k: nat | k < c.n && k != i :: t.attempts[k] == s.attempts[k];
    assert LastReason(t) == LastReason(s);
  }

  lemma TickInv(c: Config, s: State)
    requires Inv(c, s) && Enabled(c, s, HedgeTick)
    ensures Inv(c, Apply(c, s, HedgeTick))
  {
    LaunchInv(c, s);
  }

  lemma StepInv(c: Config, s: State, e: Step)
    requires Inv(c, s) && Enabled(c, s, e)
    ensures Inv(c, Apply(c, s, e))
  {
    match e
    case Send(i, o) => SendInv(c, s, i, o);
    case Receive =>
      ReceiveAccounting(c, s);
      ReceiveSerial(c, s);
      ReceiveVerdict(c, s);
    case HedgeTick => TickInv(c, s);
    case Deadline => DeadlineInv(c, s);
  }

  lemma DeadlineInv(c: Config, s: State)
    requires Inv(c, s) && Enabled(c, s, Deadline)
    ensures Inv(c, Apply(c, s, Deadline))
  {
  }

  lemma {:induction false} RunInv(c: Config, run: seq<State>, steps: seq<Step>, k: nat)
    requires IsRun(c, run, steps) && k < |run|
    ensures Inv(c, run[k])
  {
    if k == 0 {
      InitInv(c);
    } else {
      RunInv(c, run, steps, k - 1);
      StepInv(c, run[k - 1], steps[k - 1]);
    }
  }

  // ---- main results, over every run ----

  /** No attempt goes back to an earlier stage, and a returned call launches nothing. */
  ghost predicate Advanced(s: State, t: State) {
    && |s.attempts| == |t.attempts| && s.next <= t.next
    && (forall i: nat | i < |s.attempts| :: s.attempts[i].Rank() <= t.attempts[i].Rank())
    && (s.verdict.Some? ==> t.verdict == s.verdict && t.next == s.next)
  }

  lemma ApplyAdvances(c: Config, s: State, e: Step)
    requires Launched(c, s) && Enabled(c, s, e)
    ensures Advanced(s, Apply(c, s, e))
  {
  }

  lemma StepAdvances(c: Config, run: seq<State>, steps: seq<Step>, k: nat)
    requires IsRun(c, run, steps) && k < |steps|
    ensures Advanced(run[k], run[k + 1])
  {
    RunInv(c, run, steps, k);
    ApplyAdvances(c, run[k], steps[k]);
  }

  lemma RunLaunched(c: Config, run: seq<State>, steps: seq<Step>, k: nat)
    requires IsRun(c, run, steps) && k < |run|
    ensures Launched(c, run[k])
  {
    RunInv(c, run, steps, k);
  }

  /** Candidates start in order, each at most once, and none after the call returned. */
  lemma {:induction false} LaunchedInOrderOnce(c: Config, run: seq<State>, steps: seq<Step>, j: nat, k: nat)
    requires IsRun(c, run, steps) && j <= k < |run|
    ensures Launched(c, run[j]) && Launched(c, run[k]) && Advanced(run[j], run[k])
    decreases k
  {
    RunLaunched(c, run, steps, k);
    if j < k {
      LaunchedInOrderOnce(c, run, steps, j, k - 1);
      StepAdvances(c, run, steps, k - 1);
    }
  }

  /** A finished attempt always finds room in the reply channel, even after the call returned. */
  lemma SenderNeverBlocks(c: Config, run: seq<State>, steps: seq<Step>, k: nat, i: nat, o: Outcome)
    requires IsRun(c, run, steps) && k < |run|
    requires i < |run[k].attempts| && run[k].attempts[i].Running?
    ensures Enabled(c, run[k], Send(i, o))
  {
    RunInv(c, run, steps, k);
    assert i !in run[k].replies;
    DistinctBelow(run[k].replies + [i], c.n);
  }

  /** inFlight counts exactly the attempts still outstanding: launched minus consumed. */
  lemma InFlightCountsOutstanding(c: Config, run: seq<State>, steps: seq<Step>, k: nat)
    requires IsRun(c, run, steps) && k < |run|
    ensures run[k].inFlight == |Outstanding(run[k])| == run[k].next - |run[k].log|
  {
    RunInv(c, run, steps, k);
    OutstandingCount(c, run[k]);
  }

  lemma OutstandingCount(c: Config, s: State)
    requires Launched(c, s) && ChannelInv(c, s)
    ensures |Outstanding(s)| == s.next - |s.log|
  {
    RangeSize(s.next);
    DistinctSize(s.log);
    assert SetOf(s.log) <= Range(s.next);
    assert Outstanding(s) == Range(s.next) - SetOf(s.log);
    assert |Range(s.next) - SetOf(s.log)| + |Range(s.next) * SetOf(s.log)| == |Range(s.next)|;
    assert Range(s.next) * SetOf(s.log) == SetOf(s.log);
  }

  /**
   A write never has two attempts outstanding, and it reaches candidate i exactly when every
   earlier candidate's reply was consumed and was useless.
   */
  lemma {:induction false} WritesAreSerial(c: Config, run: seq<State>, steps: seq<Step>, k: nat, i: nat)
    requires IsRun(c, run, steps) && k < |run| && !c.read && i < c.n
    ensures |Outstanding(run[k])| <= 1 && |run[k].attempts| == c.n
    ensures !run[k].attempts[i].Idle? <==> forall j: nat | j < i :: run[k].attempts[j].Useless()
  {
    InFlightCountsOutstanding(c, run, steps, k);
    RunInv(c, run, steps, k);
    var s := run[k];
    if s.next <= i {
      assert !s.attempts[s.next - 1].Useless();
    }
  }

  /** A returned body is a consumed answer that is not a rate limit; every other reply consumed was useless. */
  lemma SuccessIsAnAnswer(c: Config, run: seq<State>, steps: seq<Step>, k: nat, i: nat, b: Body)
    requires IsRun(c, run, steps) && k < |run| && run[k].verdict == Some(Success(i, b))
    ensures |run[k].attempts| == c.n && i < c.n
    ensures run[k].attempts[i] == Consumed(Answered(b)) && !b.rateLimited
    ensures forall j: nat | j < c.n && j != i && run[k].attempts[j].Consumed? :: run[k].attempts[j].Useless()
  {
    RunInv(c, run, steps, k);
  }

  /** "Failed on all" is reported exactly when every candidate was launched, answered and useless. */
  lemma FailureMeansEveryone(c: Config, run: seq<State>, steps: seq<Step>, k: nat)
    requires IsRun(c, run, steps) && k < |run|
    requires run[k].verdict != Some(TimedOut)
    ensures |run[k].attempts| == c.n
    ensures (run[k].verdict.Some? && run[k].verdict.value.FailedOnAll?) <==>
            forall j: nat | j < c.n :: run[k].attempts[j].Useless()
    ensures run[k].verdict.Some? && run[k].verdict.value.FailedOnAll? && c.n > 0 ==>
            run[k].log != [] && LastReason(run[k]) == Some(run[k].verdict.value.reason)
    ensures run[k].verdict.Some? && run[k].verdict.value.FailedOnAll? && c.n > 0 ==>
              var i := run[k].log[|run[k].log| - 1];
              i < c.n && run[k].attempts[i].Consumed? &&
              run[k].verdict.value.reason ==
              match run[k].attempts[i].outcome case Failed(reason) => reason case Answered(_) => RATE_LIMITED
    ensures run[k].verdict.Some? && run[k].verdict.value.FailedOnAll? && c.n == 0 ==>
              run[k].verdict.value.reason == NO_MEMBERS
  {
    RunInv(c, run, steps, k);
    var s := run[k];
    if s.verdict.None? {
      InFlightCountsOutstanding(c, run, steps, k);
      var i :| i in Outstanding(s);
      assert !s.attempts[i].Useless();
    }
  }

  /** While the call is undecided a reply is waiting or an attempt is still running. */
  lemma NeverStuck(c: Config, run: seq<State>, steps: seq<Step>, k: nat)
    requires IsRun(c, run, steps) && k < |run| && run[k].verdict.None?
    ensures Enabled(c, run[k], Receive) || exists i: nat :: i < |run[k].attempts| && run[k].attempts[i].Running?
  {
    RunInv(c, run, steps, k);
    InFlightCountsOutstanding(c, run, steps, k);
    var i :| i in Outstanding(run[k]);
  }

  /** What is left to do: launches still possible, attempts running, replies unread, the verdict. */
  function Measure(c: Config, s: State): int {
    3 * (c.n - s.next) + 2 * s.inFlight - |s.replies| + (if s.verdict.None? then 1 else 0)
  }

  function Moves(run: seq<State>): nat {
    if |run| < 2 then 0
    else Moves(run[..|run| - 1]) + (if run[|run| - 1] != run[|run| - 2] then 1 else 0)
  }

  lemma MeasureDrops(c: Config, s: State, e: Step)
    requires Inv(c, s) && Enabled(c, s, e)
    ensures Measure(c, s) >= 0
    ensures Apply(c, s, e) == s || Measure(c, Apply(c, s, e)) < Measure(c, s)
    ensures Apply(c, s, e) == s ==> e == HedgeTick && s.next == c.n
  {
    MeasureBounded(c, s);
  }

  lemma MeasureBounded(c: Config, s: State)
    requires Inv(c, s)
    ensures Measure(c, s) >= 0
  {
    DistinctBelow(s.replies + s.log, s.next);
  }

  /** Every run takes at most 3n steps besides hedge ticks that find no candidate left. */
  lemma {:induction false} RunsTerminate(c: Config, run: seq<State>, steps: seq<Step>)
    requires IsRun(c, run, steps)
    ensures Moves(run) <= 3 * c.n
    ensures Moves(run) + Measure(c, run[|run| - 1]) <= 3 * c.n
    ensures Measure(c, run[|run| - 1]) >= 0
    decreases |run|
  {
    var last := |run| - 1;
    RunInv(c, run, steps, last);
    MeasureBounded(c, run[last]);
    if last > 0 {
      var shorter := run[..last];
      RunsTerminate(c, shorter, steps[..last - 1]);
      RunInv(c, run, steps, last - 1);
      MeasureDrops(c, run[last - 1], steps[last - 1]);
    }
  }

  lemma AfterInv(c: Config, steps: seq<Step>)
    requires After(c, steps).Some?
    ensures Inv(c, After(c, steps).value)
  {
    var run := AfterIsARun(c, steps);
    RunInv(c, run, steps, |steps|);
  }

  lemma {:induction false} AfterPrefix(c: Config, steps: seq<Step>, k: nat)
    requires After(c, steps).Some? && k <= |steps|
    ensures After(c, steps[..k]).Some?
  {
    if k == |steps| {
      assert steps[..k] == steps;
    } else {
      AfterPrefix(c, steps[..|steps| - 1], k);
      assert steps[..|steps| - 1][..k] == steps[..k];
    }
  }

  /** At any point of any call a write has one attempt outstanding at most, and an undecided read may race one more. */
  lemma OnlyReadsRace(c: Config, steps: seq<Step>)
    requires After(c, steps).Some?
    ensures var s := After(c, steps).value;
            && (!c.read ==> |Outstanding(s)| <= 1 && !Enabled(c, s, HedgeTick))
            && (c.read && s.verdict.None? ==> Enabled(c, s, HedgeTick))
            && (c.read && s.verdict.None? && s.next < c.n ==>
                  |Outstanding(Apply(c, s, HedgeTick))| == |Outstanding(s)| + 1)
  {
    var s := After(c, steps).value;
    AfterInv(c, steps);
    OutstandingCount(c, s);
    if c.read && s.verdict.None? {
      TickInv(c, s);
      OutstandingCount(c, Apply(c, s, HedgeTick));
    }
  }
}
