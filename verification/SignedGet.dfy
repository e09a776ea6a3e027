/**
 signedGet: a one-second cache in front of a single-flight group that looks into
 the cache again before going upstream. A run is any interleaving of callers,
 upstream answers, and cache entries expiring or being evicted at any moment.
 */
module SignedGet {
  import opened Basics

  type Key = string
  type Id = nat

  datatype Response = Response(status: int, body: string)

  function KeyOf(accept: string, url: string): Key {
    accept + " " + url
  }

  predicate SpaceFree(accept: string) {
    ' ' !in accept
  }

  datatype Pc = Lookup | Queueing | Waiting | Done(result: Option<Response>)

  datatype Caller = Caller(accept: string, url: string, pc: Pc) {
    function Key(): Key {
      KeyOf(accept, url)
    }
  }

  /** Where the function a flight runs has come to. */
  datatype Stage = Recheck | Cleared | Fetching(get: nat) | Landed(result: Option<Response>)

  datatype Flight = Flight(accept: string, url: string, stage: Stage, members: set<Id>)

  /** The fate of one upstream GET: its response is Cached until the entry is Gone. */
  datatype Fate = Running | Failed | Cached | Gone

  datatype Get = Get(key: Key, fate: Fate)

  datatype State = State(
    cache: map<Key, Response>,
    flights: map<Key, Flight>,
    callers: map<Id, Caller>,
    given: set<(string, string, Response)>, // what upstream answered for an (accept, url)
    gets: seq<Get>)                         // every upstream GET so far, in order

  datatype Step =
    | Arrive(id: Id, accept: string, url: string)
    | Hit(id: Id)
    | Miss(id: Id)
    | Join(id: Id)
    | LookAgain(key: Key)
    | StartGet(key: Key)
    | Upstream(key: Key, answer: Option<Response>)
    | Deliver(key: Key)
    | Evict(key: Key)

  // ---- the code; cacheOn is whether the gateway has a response cache ----

  predicate Enabled(s: State, e: Step) {
    match e
    case Arrive(id, accept, _) => id !in s.callers && SpaceFree(accept)
    case Hit(id) => id in s.callers && s.callers[id].pc.Lookup? && s.callers[id].Key() in s.cache
    case Miss(id) => id in s.callers && s.callers[id].pc.Lookup? && s.callers[id].Key() !in s.cache
    case Join(id) => id in s.callers && s.callers[id].pc.Queueing?
    case LookAgain(key) => key in s.flights && s.flights[key].stage.Recheck?
    case StartGet(key) => key in s.flights && s.flights[key].stage.Cleared?
    case Upstream(key, _) => key in s.flights && s.flights[key].stage.Fetching? && s.flights[key].stage.get < |s.gets|
    case Deliver(key) => key in s.flights && s.flights[key].stage.Landed?
    case Evict(key) => key in s.cache
  }

  function Apply(cacheOn: bool, s: State, e: Step): State
    requires Enabled(s, e)
  {
    match e
    case Arrive(id, accept, url) => s.(callers := s.callers[id := Caller(accept, url, Lookup)])
    case Hit(id) => SetPc(s, id, Done(Some(s.cache[s.callers[id].Key()])))
    case Miss(id) => SetPc(s, id, Queueing)
    case Join(id) =>
      var c := s.callers[id];
      var f := if c.Key() in s.flights then s.flights[c.Key()].(members := s.flights[c.Key()].members + {id})
               else Flight(c.accept, c.url, Recheck, {id});
      SetPc(s.(flights := s.flights[c.Key() := f]), id, Waiting)
    case LookAgain(key) =>
      SetStage(s, key, if key in s.cache then Landed(Some(s.cache[key])) else Cleared)
    case StartGet(key) =>
      SetStage(s.(gets := s.gets + [Get(key, Running)]), key, Fetching(|s.gets|))
    case Upstream(key, answer) =>
      var f, i := s.flights[key], s.flights[key].stage.get;
      if answer.None? then SetStage(s.(gets := s.gets[i := Get(key, Failed)]), key, Landed(None))
      else
        SetStage(s.(gets := s.gets[i := Get(key, if cacheOn then Cached else Gone)],
                    cache := if cacheOn then s.cache[key := answer.value] else s.cache,
                    given := s.given + {(f.accept, f.url, answer.value)}),
                 key, Landed(answer))
    case Deliver(key) =>
      var f := s.flights[key];
      s.(flights := s.flights - {key},
         callers := map id | id in s.callers ::
           if id in f.members then s.callers[id].(pc := Done(f.stage.result)) else s.callers[id])
    case Evict(key) => s.(cache := s.cache - {key}, gets := Forgotten(s.gets, key))
  }

  function SetPc(s: State, id: Id, pc: Pc): State
    requires id in s.callers
  {
    s.(callers := s.callers[id := s.callers[id].(pc := pc)])
  }

  function SetStage(s: State, key: Key, stage: Stage): State
    requires key in s.flights
  {
    s.(flights := s.flights[key := s.flights[key].(stage := stage)])
  }

  function Forgotten(gets: seq<Get>, key: Key): (r: seq<Get>)
    ensures |r| == |gets|
    ensures forall i | 0 <= i < |gets| :: r[i] == if gets[i] == Get(key, Cached) then Get(key, Gone) else gets[i]
  {
    if gets == [] then []
    else Forgotten(gets[..|gets| - 1], key) +
         [if gets[|gets| - 1] == Get(key, Cached) then Get(key, Gone) else gets[|gets| - 1]]
  }

  ghost predicate IsRun(cacheOn: bool, run: seq<State>, steps: seq<Step>) {
    && |run| == |steps| + 1 && run[0] == State(map[], map[], map[], {}, [])
    && forall k | 0 <= k < |steps| :: Enabled(run[k], steps[k]) && run[k + 1] == Apply(cacheOn, run[k], steps[k])
  }

  // ---- the key ----

  function BeforeSpace(s: string): string {
    if s == "" || s[0] == ' ' then "" else [s[0]] + BeforeSpace(s[1..])
  }

  lemma {:induction false} BeforeSpaceOfKey(a: string, u: string)
    requires SpaceFree(a)
    ensures BeforeSpace(KeyOf(a, u)) == a
  {
    if a != "" {
      BeforeSpaceOfKey(a[1..], u);
      assert KeyOf(a, u)[1..] == KeyOf(a[1..], u);
    }
  }

  /** Requests with space-free accept values share a key only when they are the same. */
  lemma KeyInjective(a: string, u: string, b: string, v: string)
    requires SpaceFree(a) && SpaceFree(b) && KeyOf(a, u) == KeyOf(b, v)
    ensures a == b && u == v
  {
    BeforeSpaceOfKey(a, u);
    BeforeSpaceOfKey(b, v);
    assert u == KeyOf(a, u)[|a| + 1..] && v == KeyOf(b, v)[|a| + 1..];
  }

  /** With a space in it an accept value can collide with another request. */
  lemma SpacesCollide()
    ensures KeyOf("a b", "c") == KeyOf("a", "b c")
  {
  }

  // ---- single flight ----

  /** Only the latest GET of a key can be running or still answering from the cache. */
  ghost predicate OneAtATime(s: State) {
    && (forall i, j | 0 <= i < j < |s.gets| && s.gets[i].key == s.gets[j].key ::
          s.gets[i].fate.Failed? || s.gets[i].fate.Gone?)
    && (forall i: nat | i < |s.gets| :: s.gets[i].fate.Cached? ==> s.gets[i].key in s.cache)
    && (forall i: nat | i < |s.gets| :: s.gets[i].fate.Running? ==>
          s.gets[i].key in s.flights && s.flights[s.gets[i].key].stage == Fetching(i))
    && (forall key | key in s.flights :: match s.flights[key].stage
          case Fetching(i) => i < |s.gets| && s.gets[i] == Get(key, Running)
          case Cleared => key !in s.cache
          case _ => true)
  }

  lemma UpstreamOneAtATime(cacheOn: bool, s: State, key: Key, answer: Option<Response>)
    requires OneAtATime(s) && Enabled(s, Upstream(key, answer))
    ensures OneAtATime(Apply(cacheOn, s, Upstream(key, answer)))
  {
    var t := Apply(cacheOn, s, Upstream(key, answer));
    var i := s.flights[key].stage.get;
    assert forall j: nat | j < |s.gets| && j != i :: t.gets[j] == s.gets[j];
    assert t.gets[i].key == key;
  }

  lemma StartOneAtATime(cacheOn: bool, s: State, key: Key)
    requires OneAtATime(s) && Enabled(s, StartGet(key))
    ensures OneAtATime(Apply(cacheOn, s, StartGet(key)))
  {
  }

  lemma EvictOneAtATime(cacheOn: bool, s: State, key: Key)
    requires OneAtATime(s) && Enabled(s, Evict(key))
    ensures OneAtATime(Apply(cacheOn, s, Evict(key)))
  {
  }

  lemma StepOneAtATime(cacheOn: bool, s: State, e: Step)
    requires OneAtATime(s) && Enabled(s, e)
    ensures OneAtATime(Apply(cacheOn, s, e))
  {
    match e
    case Upstream(key, answer) => UpstreamOneAtATime(cacheOn, s, key, answer);
    case StartGet(key) => StartOneAtATime(cacheOn, s, key);
    case Evict(key) => EvictOneAtATime(cacheOn, s, key);
    case _ => assert Apply(cacheOn, s, e).gets == s.gets && Apply(cacheOn, s, e).cache == s.cache;
  }

  /**
   Over every run at most one GET per key is in progress, and when a later GET of the same key was
   sent, the earlier one had failed or its cache entry had expired or been evicted.
   */
  lemma {:induction false} SingleFlight(cacheOn: bool, run: seq<State>, steps: seq<Step>, k: nat)
    requires IsRun(cacheOn, run, steps) && k < |run|
    ensures OneAtATime(run[k])
    ensures forall i, j | 0 <= i < j < |run[k].gets| && run[k].gets[i].key == run[k].gets[j].key ::
              run[k].gets[i].fate == Failed || run[k].gets[i].fate == Gone
  {
    if k > 0 {
      SingleFlight(cacheOn, run, steps, k - 1);
      StepOneAtATime(cacheOn, run[k - 1], steps[k - 1]);
    }
  }

  /** With the cache switched off nothing is ever remembered, so no caller is answered from memory. */
  lemma {:induction false} NoCacheNoMemory(run: seq<State>, steps: seq<Step>, k: nat)
    requires IsRun(false, run, steps) && k < |run|
    ensures run[k].cache == map[]
    ensures k < |steps| ==> !steps[k].Hit?
  {
    if k > 0 {
      NoCacheNoMemory(run, steps, k - 1);
    }
  }

  // ---- everyone gets an answer to their own question ----

  ghost predicate CacheAnswers(s: State) {
    forall accept, url | SpaceFree(accept) && KeyOf(accept, url) in s.cache ::
      (accept, url, s.cache[KeyOf(accept, url)]) in s.given
  }

  ghost predicate FlightAnswers(key: Key, f: Flight, s: State) {
    && SpaceFree(f.accept) && key == KeyOf(f.accept, f.url)
    && (f.stage.Landed? && f.stage.result.Some? ==> (f.accept, f.url, f.stage.result.value) in s.given)
    && forall id | id in f.members :: id in s.callers && s.callers[id].Key() == key && s.callers[id].pc.Waiting?
  }

  ghost predicate CallerAnswers(id: Id, c: Caller, s: State) {
    && SpaceFree(c.accept)
    && (c.pc.Done? && c.pc.result.Some? ==> (c.accept, c.url, c.pc.result.value) in s.given)
    && (c.pc.Waiting? ==> c.Key() in s.flights && id in s.flights[c.Key()].members)
  }

  ghost predicate Answers(s: State) {
    && CacheAnswers(s)
    && (forall key | key in s.flights :: FlightAnswers(key, s.flights[key], s))
    && (forall id | id in s.callers :: CallerAnswers(id, s.callers[id], s))
  }

  lemma StepCacheAnswers(cacheOn: bool, s: State, e: Step)
    requires Answers(s) && Enabled(s, e)
    ensures CacheAnswers(Apply(cacheOn, s, e))
  {
    var t := Apply(cacheOn, s, e);
    forall accept, url | SpaceFree(accept) && KeyOf(accept, url) in t.cache
      ensures (accept, url, t.cache[KeyOf(accept, url)]) in t.given
    {
      if e.Upstream? && KeyOf(accept, url) == e.key {
        assert FlightAnswers(e.key, s.flights[e.key], s);
        KeyInjective(accept, url, s.flights[e.key].accept, s.flights[e.key].url);
      }
    }
  }

  /** Steps that neither join nor deliver leave members waiting and can only add to what upstream gave. */
  lemma QuietFlightAnswers(cacheOn: bool, s: State, e: Step, key: Key)
    requires Answers(s) && Enabled(s, e) && !e.Join? && !e.Deliver? && !e.Upstream?
    requires key in Apply(cacheOn, s, e).flights
    ensures FlightAnswers(key, Apply(cacheOn, s, e).flights[key], Apply(cacheOn, s, e))
  {
    assert FlightAnswers(key, s.flights[key], s);
  }

  lemma UpstreamFlightAnswers(cacheOn: bool, s: State, got: Key, answer: Option<Response>, key: Key)
    requires Answers(s) && Enabled(s, Upstream(got, answer))
    requires key in Apply(cacheOn, s, Upstream(got, answer)).flights
    ensures FlightAnswers(key, Apply(cacheOn, s, Upstream(got, answer)).flights[key],
                          Apply(cacheOn, s, Upstream(got, answer)))
  {
    assert FlightAnswers(key, s.flights[key], s);
  }

  lemma JoinFlightAnswers(cacheOn: bool, s: State, id: Id, key: Key)
    requires Answers(s) && Enabled(s, Join(id))
    requires key in Apply(cacheOn, s, Join(id)).flights
    ensures FlightAnswers(key, Apply(cacheOn, s, Join(id)).flights[key], Apply(cacheOn, s, Join(id)))
  {
    assert CallerAnswers(id, s.callers[id], s);
    if key in s.flights {
      assert FlightAnswers(key, s.flights[key], s);
    }
  }

  lemma DeliverFlightAnswers(cacheOn: bool, s: State, landed: Key, key: Key)
    requires Answers(s) && Enabled(s, Deliver(landed))
    requires key in Apply(cacheOn, s, Deliver(landed)).flights
    ensures FlightAnswers(key, Apply(cacheOn, s, Deliver(landed)).flights[key], Apply(cacheOn, s, Deliver(landed)))
  {
    assert FlightAnswers(key, s.flights[key], s);
    assert FlightAnswers(landed, s.flights[landed], s);
  }

  lemma StepFlightAnswers(cacheOn: bool, s: State, e: Step)
    requires Answers(s) && Enabled(s, e)
    ensures var t := Apply(cacheOn, s, e); forall key | key in t.flights :: FlightAnswers(key, t.flights[key], t)
  {
    forall key | key in Apply(cacheOn, s, e).flights
      ensures FlightAnswers(key, Apply(cacheOn, s, e).flights[key], Apply(cacheOn, s, e))
    {
      match e
      case Upstream(got, answer) => UpstreamFlightAnswers(cacheOn, s, got, answer, key);
      case Join(id) => JoinFlightAnswers(cacheOn, s, id, key);
      case Deliver(landed) => DeliverFlightAnswers(cacheOn, s, landed, key);
      case _ => QuietFlightAnswers(cacheOn, s, e, key);
    }
  }

  lemma StepCallerAnswers(cacheOn: bool, s: State, e: Step)
    requires Answers(s) && Enabled(s, e)
    ensures var t := Apply(cacheOn, s, e); forall id | id in t.callers :: CallerAnswers(id, t.callers[id], t)
  {
    var t := Apply(cacheOn, s, e);
    forall id | id in t.callers
      ensures CallerAnswers(id, t.callers[id], t)
    {
      if id in s.callers {
        var c := s.callers[id];
        assert CallerAnswers(id, c, s);
        if e.Deliver? && id in s.flights[e.key].members {
          var f := s.flights[e.key];
          assert FlightAnswers(e.key, f, s);
          KeyInjective(c.accept, c.url, f.accept, f.url);
        }
      }
    }
  }

  /**
   Over every run, a caller that got a response got one upstream gave for its own accept and url,
   and a caller that waits is a member of the flight for its key, so it will be served when it lands.
   */
  lemma {:induction false} OwnAnswers(cacheOn: bool, run: seq<State>, steps: seq<Step>, k: nat)
    requires IsRun(cacheOn, run, steps) && k < |run|
    ensures Answers(run[k])
  {
    if k > 0 {
      OwnAnswers(cacheOn, run, steps, k - 1);
      StepCacheAnswers(cacheOn, run[k - 1], steps[k - 1]);
      StepFlightAnswers(cacheOn, run[k - 1], steps[k - 1]);
      StepCallerAnswers(cacheOn, run[k - 1], steps[k - 1]);
    }
  }

  // ---- what a failure and a missing entry mean ----

  ghost predicate FailedGet(s: State, key: Key) {
    exists i: nat :: i < |s.gets| && s.gets[i] == Get(key, Failed)
  }

  /** Behind a flight that landed without a response, or a caller that got none, is a failed GET of its key. */
  ghost predicate FailuresAreReal(s: State) {
    && (forall key | key in s.flights && s.flights[key].stage == Landed(None) :: FailedGet(s, key))
    && (forall id | id in s.callers && s.callers[id].pc == Done(None) :: FailedGet(s, s.callers[id].Key()))
  }

  /** A failed GET stays one. */
  lemma FailedStays(cacheOn: bool, s: State, e: Step, key: Key)
    requires OneAtATime(s) && Enabled(s, e) && FailedGet(s, key)
    ensures FailedGet(Apply(cacheOn, s, e), key)
  {
    var i: nat :| i < |s.gets| && s.gets[i] == Get(key, Failed);
    var t := Apply(cacheOn, s, e);
    assert e.Upstream? ==> s.gets[s.flights[e.key].stage.get].fate.Running?;
    assert i < |t.gets| && t.gets[i] == Get(key, Failed);
  }

  lemma UpstreamFails(cacheOn: bool, s: State, key: Key)
    requires Enabled(s, Upstream(key, None))
    ensures FailedGet(Apply(cacheOn, s, Upstream(key, None)), key)
  {
    var i := s.flights[key].stage.get;
    assert Apply(cacheOn, s, Upstream(key, None)).gets[i] == Get(key, Failed);
  }

  lemma StepFlightFailures(cacheOn: bool, s: State, e: Step, key: Key)
    requires OneAtATime(s) && FailuresAreReal(s) && Enabled(s, e)
    requires key in Apply(cacheOn, s, e).flights && Apply(cacheOn, s, e).flights[key].stage == Landed(None)
    ensures FailedGet(Apply(cacheOn, s, e), key)
  {
    if key in s.flights && s.flights[key].stage == Landed(None) {
      FailedStays(cacheOn, s, e, key);
    } else {
      assert e == Upstream(key, None);
      UpstreamFails(cacheOn, s, key);
    }
  }

  lemma StepCallerFailures(cacheOn: bool, s: State, e: Step, id: Id)
    requires OneAtATime(s) && FailuresAreReal(s) && Answers(s) && Enabled(s, e)
    requires id in Apply(cacheOn, s, e).callers && Apply(cacheOn, s, e).callers[id].pc == Done(None)
    ensures FailedGet(Apply(cacheOn, s, e), Apply(cacheOn, s, e).callers[id].Key())
  {
    assert id in s.callers && Apply(cacheOn, s, e).callers[id].Key() == s.callers[id].Key();
    if s.callers[id].pc != Done(None) {
      assert e.Deliver? && id in s.flights[e.key].members && s.flights[e.key].stage == Landed(None);
      assert FlightAnswers(e.key, s.flights[e.key], s);
    }
    FailedStays(cacheOn, s, e, s.callers[id].Key());
  }

  /** Over every run, a caller that gets no response had an upstream GET of its own key fail. */
  lemma {:induction false} NoneMeansFailed(cacheOn: bool, run: seq<State>, steps: seq<Step>, k: nat)
    requires IsRun(cacheOn, run, steps) && k < |run|
    ensures FailuresAreReal(run[k])
  {
    if k > 0 {
      var s, e := run[k - 1], steps[k - 1];
      NoneMeansFailed(cacheOn, run, steps, k - 1);
      SingleFlight(cacheOn, run, steps, k - 1);
      OwnAnswers(cacheOn, run, steps, k - 1);
      forall key | key in run[k].flights && run[k].flights[key].stage == Landed(None)
        ensures FailedGet(run[k], key)
      {
        StepFlightFailures(cacheOn, s, e, key);
      }
      forall id | id in run[k].callers && run[k].callers[id].pc == Done(None)
        ensures FailedGet(run[k], run[k].callers[id].Key())
      {
        StepCallerFailures(cacheOn, s, e, id);
      }
    }
  }

  /** Upstream answered GET i with the given answer at step j. */
  ghost predicate AnsweredAt(run: seq<State>, steps: seq<Step>, j: nat, i: nat, some: bool)
    requires |run| == |steps| + 1
  {
    && j < |steps| && steps[j].Upstream? && steps[j].answer.Some? == some
    && steps[j].key in run[j].flights && run[j].flights[steps[j].key].stage == Fetching(i)
  }

  ghost predicate Evicted(steps: seq<Step>, k: nat, key: Key) {
    exists j: nat :: j < k && j < |steps| && steps[j] == Evict(key)
  }

  ghost predicate FateEarned(cacheOn: bool, run: seq<State>, steps: seq<Step>, k: nat, i: nat)
    requires |run| == |steps| + 1 && k < |run| && i < |run[k].gets|
  {
    match run[k].gets[i].fate
    case Running => true
    case Failed => exists j: nat :: j < k && AnsweredAt(run, steps, j, i, false)
    case Cached => cacheOn && exists j: nat :: j < k && AnsweredAt(run, steps, j, i, true)
    case Gone =>
      && (exists j: nat :: j < k && AnsweredAt(run, steps, j, i, true))
      && (cacheOn ==> Evicted(steps, k, run[k].gets[i].key))
  }

  lemma FateStep(cacheOn: bool, s: State, e: Step, i: nat)
    requires OneAtATime(s) && Enabled(s, e) && i < |Apply(cacheOn, s, e).gets|
    ensures var t := Apply(cacheOn, s, e);
            if i >= |s.gets| then t.gets[i].fate.Running?
            else
              t.gets[i].key == s.gets[i].key &&
              (|| t.gets[i] == s.gets[i]
               || (e.Upstream? && e.key in s.flights && s.flights[e.key].stage == Fetching(i) && s.gets[i].fate.Running?
                   && t.gets[i].fate == if e.answer.None? then Failed else if cacheOn then Cached else Gone)
               || (e == Evict(s.gets[i].key) && s.gets[i].fate.Cached? && t.gets[i].fate.Gone?))
  {
  }

  /**
   Over every run, a GET counts as failed only if upstream failed it, and while there is a cache its
   entry is gone only if it was evicted or expired: every other answered GET still serves from the cache.
   */
  lemma {:induction false} FatesAreEarned(cacheOn: bool, run: seq<State>, steps: seq<Step>, k: nat, i: nat)
    requires IsRun(cacheOn, run, steps) && k < |run| && i < |run[k].gets|
    ensures FateEarned(cacheOn, run, steps, k, i)
  {
    if k > 0 {
      var s, e := run[k - 1], steps[k - 1];
      SingleFlight(cacheOn, run, steps, k - 1);
      FateStep(cacheOn, s, e, i);
      if i < |s.gets| {
        FatesAreEarned(cacheOn, run, steps, k - 1, i);
        if run[k].gets[i] != s.gets[i] {
          if e.Upstream? {
            assert AnsweredAt(run, steps, k - 1, i, e.answer.Some?);
          } else {
            assert steps[k - 1] == Evict(s.gets[i].key);
          }
        }
      }
    }
  }
}
