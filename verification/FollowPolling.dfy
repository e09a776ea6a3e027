/**
 Turning successive reads of a user's followings into Follow and Undo activities.
 A round sees the listed ids and an oracle for what handle resolution answered in
 that round, which may differ from round to round.
 */
module FollowPolling {
  import opened Basics
  import FollowerIds

  type Id = string
  type Actor = string

  datatype Event = Follow(actor: Actor) | Unfollow(actor: Actor)

  /** One listed id and what resolving it gave; only the ids of bridged accounts are resolved. */
  datatype Listed = Listed(id: Id, resolved: Option<Actor>) {
    predicate Bridged() {
      FollowerIds.IsBridgedUserID(id)
    }
  }

  /** None when the read failed, answered with an error, or did not parse. */
  type Round = Option<seq<Listed>>

  /** The actors a read resolves to. */
  function Resolved(listed: seq<Listed>): set<Actor> {
    set l | l in listed && l.Bridged() && l.resolved.Some? :: l.resolved.value
  }

  predicate Adopts(known: Option<set<Actor>>, round: Round) {
    round.Some? && (known.None? || known.value == {} || Resolved(round.value) != {})
  }

  function KnownAfter(known: Option<set<Actor>>, round: Round): Option<set<Actor>> {
    if Adopts(known, round) then Some(Resolved(round.value)) else known
  }

  function EventOf(a: Actor, follow: bool): Event {
    if follow then Follow(a) else Unfollow(a)
  }

  /** es has exactly one event, of the given kind, for each actor of todo. */
  ghost predicate Visits(es: seq<Event>, todo: set<Actor>, follow: bool) {
    && Distinct(es)
    && (forall e | e in es :: e == EventOf(e.actor, follow) && e.actor in todo)
    && (forall a | a in todo :: EventOf(a, follow) in es)
  }

  lemma VisitsOneMore(es: seq<Event>, done: set<Actor>, a: Actor, follow: bool)
    requires Visits(es, done, follow) && a !in done
    ensures Visits(es + [EventOf(a, follow)], done + {a}, follow)
  {
    assert EventOf(a, follow) !in es;
  }

  /** The events of visiting a set in an arbitrary order, as ranging over a map does. */
  method FollowAll(todo: set<Actor>) returns (es: seq<Event>)
    ensures Visits(es, todo, true)
  {
    var left := todo;
    es := [];
    while left != {}
      invariant left <= todo
      invariant Visits(es, todo - left, true)
    {
      var a :| a in left;
      VisitsOneMore(es, todo - left, a, true);
      assert todo - (left - {a}) == todo - left + {a};
      es := es + [Follow(a)];
      left := left - {a};
    }
    assert todo - left == todo;
  }

  method UnfollowAll(todo: set<Actor>) returns (es: seq<Event>)
    ensures Visits(es, todo, false)
  {
    var left := todo;
    es := [];
    while left != {}
      invariant left <= todo
      invariant Visits(es, todo - left, false)
    {
      var a :| a in left;
      VisitsOneMore(es, todo - left, a, false);
      assert todo - (left - {a}) == todo - left + {a};
      es := es + [Unfollow(a)];
      left := left - {a};
    }
    assert todo - left == todo;
  }

  /** The events a round may emit: nothing, or all new follows and then all lost ones, each once, in any order. */
  ghost predicate IsRoundOf(es: seq<Event>, known: Option<set<Actor>>, round: Round) {
    if known.None? || !Adopts(known, round) then es == []
    else
      exists n: nat :: n <= |es|
        && Visits(es[..n], Resolved(round.value) - known.value, true)
        && Visits(es[n..], known.value - Resolved(round.value), false)
  }

  class FollowPoller {
    var known: Option<set<Actor>>
    var events: seq<Event>

    constructor ()
      ensures known == None && events == []
    {
      known, events := None, [];
    }

    method Poll(round: Round)
      modifies this
      ensures known == KnownAfter(old(known), round)
      ensures exists es :: events == old(events) + es && IsRoundOf(es, old(known), round)
    {
      if round.None? {
        assert IsRoundOf([], known, round);
        assert events == events + [];
        return;
      }
      var listed := round.value;
      var current: set<Actor> := {};
      for k := 0 to |listed|
        invariant current == Resolved(listed[..k])
      {
        assert listed[..k + 1] == listed[..k] + [listed[k]];
        if listed[k].Bridged() && listed[k].resolved.Some? {
          current := current + {listed[k].resolved.value};
        }
      }
      assert listed[..|listed|] == listed;
      if known.None? || (current == {} && known.value != {}) {
        if known.None? {
          known := Some(current);
        }
        assert IsRoundOf([], old(known), round);
        assert events == events + [];
        return;
      }
      var follows := FollowAll(current - known.value);
      var unfollows := UnfollowAll(known.value - current);
      assert IsRoundOf(follows + unfollows, known, round) by {
        assert (follows + unfollows)[..|follows|] == follows;
        assert (follows + unfollows)[|follows|..] == unfollows;
      }
      events := events + (follows + unfollows);
      known := Some(current);
    }
  }

  // ---- runs ----

  /** Rounds in order, with the events each emitted. */
  datatype Turn = Turn(round: Round, events: seq<Event>)

  function Known(turns: seq<Turn>): Option<set<Actor>> {
    if turns == [] then None
    else KnownAfter(Known(turns[..|turns| - 1]), turns[|turns| - 1].round)
  }

  ghost predicate IsHistory(turns: seq<Turn>) {
    turns == [] ||
    (var before, last := turns[..|turns| - 1], turns[|turns| - 1];
     IsHistory(before) && IsRoundOf(last.events, Known(before), last.round))
  }

  function Emitted(turns: seq<Turn>): seq<Event> {
    if turns == [] then [] else Emitted(turns[..|turns| - 1]) + turns[|turns| - 1].events
  }

  /** The first set read successfully: the baseline, whose follows are not announced. */
  function Baseline(turns: seq<Turn>): set<Actor> {
    if turns == [] then {}
    else if Known(turns[..|turns| - 1]).Some? then Baseline(turns[..|turns| - 1])
    else if turns[|turns| - 1].round.Some? then Resolved(turns[|turns| - 1].round.value)
    else {}
  }

  function Step(s: set<Actor>, e: Event): set<Actor> {
    match e
    case Follow(a) => s + {a}
    case Unfollow(a) => s - {a}
  }

  function Replay(s: set<Actor>, es: seq<Event>): set<Actor> {
    if es == [] then s else Step(Replay(s, es[..|es| - 1]), es[|es| - 1])
  }

  /** A follow is announced only of an actor outside the set at that point, an unfollow only of one inside. */
  ghost predicate Legit(s: set<Actor>, es: seq<Event>) {
    es == [] ||
    (var front, e := es[..|es| - 1], es[|es| - 1];
     Legit(s, front) && (e.Follow? <==> e.actor !in Replay(s, front)))
  }

  lemma {:induction false} ReplayConcat(s: set<Actor>, a: seq<Event>, b: seq<Event>)
    ensures Replay(s, a + b) == Replay(Replay(s, a), b)
  {
    if b == [] {
      assert a + b == a;
    } else {
      ReplayConcat(s, a, b[..|b| - 1]);
      assert (a + b)[..|a + b| - 1] == a + b[..|b| - 1];
    }
  }

  lemma {:induction false} LegitConcat(s: set<Actor>, a: seq<Event>, b: seq<Event>)
    requires Legit(s, a) && Legit(Replay(s, a), b)
    ensures Legit(s, a + b)
  {
    if b == [] {
      assert a + b == a;
    } else {
      var front := b[..|b| - 1];
      LegitConcat(s, a, front);
      ReplayConcat(s, a, front);
      assert (a + b)[..|a + b| - 1] == a + front;
    }
  }

  lemma VisitsFront(es: seq<Event>, todo: set<Actor>, follow: bool)
    requires Visits(es, todo, follow) && es != []
    ensures var e := es[|es| - 1];
            e == EventOf(e.actor, follow) && e.actor in todo && Visits(es[..|es| - 1], todo - {e.actor}, follow)
  {
    var front, e := es[..|es| - 1], es[|es| - 1];
    assert es == front + [e];
    assert e in es;
    forall a | a in todo - {e.actor}
      ensures EventOf(a, follow) in front
    {
      assert EventOf(a, follow) in es;
    }
    forall d | d in front
      ensures d.actor != e.actor
    {
      assert d in es && d != e;
    }
  }

  /** Visiting todo adds, or removes, exactly its actors, each while it is still on the other side. */
  lemma {:induction false} VisitEffect(s: set<Actor>, es: seq<Event>, todo: set<Actor>, follow: bool)
    requires Visits(es, todo, follow)
    requires if follow then todo !! s else todo <= s
    ensures Replay(s, es) == if follow then s + todo else s - todo
    ensures Legit(s, es)
  {
    if es == [] {
      assert forall a | a in todo :: EventOf(a, follow) in es;
      assert todo == {};
    } else {
      VisitsFront(es, todo, follow);
      var a := es[|es| - 1].actor;
      VisitEffect(s, es[..|es| - 1], todo - {a}, follow);
      assert Step(if follow then s + (todo - {a}) else s - (todo - {a}), EventOf(a, follow)) ==
             if follow then s + todo else s - todo;
    }
  }

  lemma TwoVisits(s: set<Actor>, t: set<Actor>, follows: seq<Event>, unfollows: seq<Event>)
    requires Visits(follows, t - s, true) && Visits(unfollows, s - t, false)
    ensures Replay(s, follows + unfollows) == t && Legit(s, follows + unfollows)
  {
    VisitEffect(s, follows, t - s, true);
    VisitEffect(s + (t - s), unfollows, s - t, false);
    ReplayConcat(s, follows, unfollows);
    LegitConcat(s, follows, unfollows);
    assert s + (t - s) - (s - t) == t;
  }

  lemma RoundEffect(es: seq<Event>, known: set<Actor>, round: Round)
    requires IsRoundOf(es, Some(known), round)
    ensures Replay(known, es) == KnownAfter(Some(known), round).value
    ensures Legit(known, es)
  {
    if Adopts(Some(known), round) {
      var n := SplitRound(es, known, round);
      TwoVisits(known, Resolved(round.value), es[..n], es[n..]);
      assert es[..n] + es[n..] == es;
    }
  }

  lemma SplitRound(es: seq<Event>, known: set<Actor>, round: Round) returns (n: nat)
    requires IsRoundOf(es, Some(known), round) && Adopts(Some(known), round)
    ensures n <= |es|
    ensures Visits(es[..n], Resolved(round.value) - known, true)
    ensures Visits(es[n..], known - Resolved(round.value), false)
  {
    n :| n <= |es| && Visits(es[..n], Resolved(round.value) - known, true) &&
         Visits(es[n..], known - Resolved(round.value), false);
  }

  /**
   Over every history: replaying the announced events on the baseline gives the set the poller
   knows, and every follow announced was missing and every unfollow present at that point.
   */
  lemma {:induction false} EventsReplayToKnown(turns: seq<Turn>)
    requires IsHistory(turns)
    ensures Known(turns) == None ==> Emitted(turns) == []
    ensures Known(turns) != None ==> Known(turns) == Some(Replay(Baseline(turns), Emitted(turns)))
    ensures Legit(Baseline(turns), Emitted(turns))
  {
    if turns != [] {
      var before, last := turns[..|turns| - 1], turns[|turns| - 1];
      EventsReplayToKnown(before);
      if Known(before).Some? {
        RoundEffect(last.events, Known(before).value, last.round);
        ReplayConcat(Baseline(before), Emitted(before), last.events);
        LegitConcat(Baseline(before), Emitted(before), last.events);
      }
    }
  }

  // ---- single rounds ----

  /** What a read resolves to: what its bridged ids do; native users and ids that fail to resolve add nothing. */
  lemma ResolvedExactly(listed: seq<Listed>, a: Actor)
    ensures a in Resolved(listed) <==>
            exists k: nat :: k < |listed| && listed[k].resolved == Some(a) &&
                             ("ap:" <= listed[k].id || '@' in listed[k].id)
  {
    if a in Resolved(listed) {
      var l :| l in listed && l.Bridged() && l.resolved == Some(a);
      var k: nat :| k < |listed| && listed[k] == l;
      assert "ap:" <= listed[k].id || '@' in listed[k].id;
    }
  }

  /** What an actor's event in a round means, both ways: an unfollow needs only that no listed id resolved to it. */
  lemma EventsExactly(es: seq<Event>, known: set<Actor>, round: Round, a: Actor)
    requires IsRoundOf(es, Some(known), round) && round.Some?
    ensures Follow(a) in es <==> a !in known && a in Resolved(round.value)
    ensures Unfollow(a) in es <==> a in known && a !in Resolved(round.value) && Resolved(round.value) != {}
  {
    var current := Resolved(round.value);
    if Adopts(Some(known), round) {
      var n := SplitRound(es, known, round);
      assert es[..n] + es[n..] == es;
      VisitsExactly(es[..n], current - known, true, a);
      VisitsExactly(es[n..], known - current, false, a);
    }
  }

  lemma VisitsExactly(es: seq<Event>, todo: set<Actor>, follow: bool, a: Actor)
    requires Visits(es, todo, follow)
    ensures EventOf(a, follow) in es <==> a in todo
    ensures EventOf(a, !follow) !in es
  {
  }

  /** Failed rounds, and rounds in which everything vanished, say nothing and change nothing. */
  lemma QuietRounds(es: seq<Event>, known: set<Actor>, round: Round)
    requires IsRoundOf(es, Some(known), round)
    requires round.None? || Resolved(round.value) == {}
    ensures es == [] && KnownAfter(Some(known), round) == Some(known)
  {
    if Adopts(Some(known), round) {
      NoChangeNoEvents(es, known, round);
    }
  }

  /** Renaming ids, listing an actor under two ids or in another order is not an event. */
  lemma NoChangeNoEvents(es: seq<Event>, known: set<Actor>, round: Round)
    requires IsRoundOf(es, Some(known), round) && round.Some? && Resolved(round.value) == known
    ensures es == []
  {
    if es != [] && Adopts(Some(known), round) {
      var e := es[0];
      assert e in es && (e == Follow(e.actor) || e == Unfollow(e.actor));
      EventsExactly(es, known, round, e.actor);
    }
  }

  // ---- a following that only fails to resolve ----

  /** A read of a list of ids, each resolved as the gateway does; finger is what WebFinger answers in that round. */
  function Read(self: string, ids: seq<Id>, finger: map<string, string>): Round {
    Some(seq(|ids|, i requires 0 <= i < |ids| => Listed(ids[i], FollowerIds.ResolveActorID(self, ids[i], finger))))
  }

  lemma VisitsFew(es: seq<Event>, a: Actor, follow: bool)
    ensures Visits(es, {}, follow) <==> es == []
    ensures Visits(es, {a}, follow) <==> es == [EventOf(a, follow)]
  {
    if |es| > 0 {
      assert es[0] in es;
    }
    if |es| > 1 {
      assert es[1] in es && (Distinct(es) ==> es[0] != es[1]);
    }
  }

  lemma OneLost(es: seq<Event>, a: Actor, b: Actor, round: Round)
    requires a != b && round.Some? && Resolved(round.value) == {b}
    ensures IsRoundOf(es, Some({a, b}), round) <==> es == [Unfollow(a)]
  {
    assert {b} - {a, b} == {} && {a, b} - {b} == {a};
    forall n: nat | n <= |es|
      ensures Visits(es[..n], {}, true) && Visits(es[n..], {a}, false) <==> n == 0 && es == [Unfollow(a)]
    {
      VisitsFew(es[..n], a, true);
      VisitsFew(es[n..], a, false);
      assert n == 0 ==> es[n..] == es;
    }
    if es == [Unfollow(a)] {
      assert Visits(es[..0], {}, true) && Visits(es[0..], {a}, false);
    }
  }

  /** Without WebFinger's answer a handle resolves to nothing, and every other id to what it did. */
  lemma HandleLost(self: string, x: Id, y: Id, finger: map<string, string>)
    requires '@' in x && '@' in y && x != y
    ensures FollowerIds.ResolveActorID(self, x, finger - {x}) == None
    ensures FollowerIds.ResolveActorID(self, y, finger - {x}) == FollowerIds.ResolveActorID(self, y, finger)
  {
    FollowerIds.HandlesDoNotDecode(x);
    FollowerIds.HandlesDoNotDecode(y);
  }

  lemma ReadOfTwo(self: string, x: Id, y: Id, finger: map<string, string>)
    requires '@' in x && '@' in y
    ensures var rx, ry := FollowerIds.ResolveActorID(self, x, finger), FollowerIds.ResolveActorID(self, y, finger);
            Resolved(Read(self, [x, y], finger).value) ==
            (if rx.Some? then {rx.value} else {}) + (if ry.Some? then {ry.value} else {})
  {
    var listed := Read(self, [x, y], finger).value;
    assert listed == [listed[0], listed[1]];
    ResolvedOfTwo(listed[0], listed[1]);
  }

  lemma ResolvedOfTwo(a: Listed, b: Listed)
    requires a.Bridged() && b.Bridged()
    ensures Resolved([a, b]) == (if a.resolved.Some? then {a.resolved.value} else {}) +
                                (if b.resolved.Some? then {b.resolved.value} else {})
  {
    assert [a, b][0] in [a, b] && [a, b][1] in [a, b];
    forall l | l in [a, b] ensures l == a || l == b {}
  }

  /**
   For any two handles that resolve to different actors: once both have been read, a round that lists
   them both again but in which WebFinger does not answer for the first announces an unfollow of its
   actor, and nothing else.
   */
  lemma UnresolvableIsUnfollowed(self: string, x: Id, y: Id, a: Actor, b: Actor, finger: map<string, string>,
                                 first: seq<Event>, second: seq<Event>)
    requires '@' in x && '@' in y && x != y && a != b
    requires FollowerIds.ResolveActorID(self, x, finger) == Some(a)
    requires FollowerIds.ResolveActorID(self, y, finger) == Some(b)
    ensures IsHistory([Turn(Read(self, [x, y], finger), first), Turn(Read(self, [x, y], finger - {x}), second)]) <==>
            first == [] && second == [Unfollow(a)]
  {
    var turns := [Turn(Read(self, [x, y], finger), first), Turn(Read(self, [x, y], finger - {x}), second)];
    HandleLost(self, x, y, finger);
    ReadOfTwo(self, x, y, finger);
    ReadOfTwo(self, x, y, finger - {x});
    assert turns[..1] == [turns[0]] && turns[..1][..0] == [];
    assert {a} + {b} == {a, b} && {} + {b} == {b};
    assert Known([]) == None && Known(turns[..1]) == Some({a, b});
    assert IsHistory(turns[..1]) <==> first == [];
    OneLost(second, a, b, turns[1].round);
  }
}
