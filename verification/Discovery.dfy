/**
 Which member nodes a request may go to, and in what order: the bounded list of
 peers that answered before, the DHT routing table, and the throttle cooldown.
 */
module Discovery {
  import opened Basics

  type Peer = string
  type Route = string

  const MAX_MEMBER_CANDIDATES: nat := 64

  // ---- the list of good peers ----

  function MoveToFront(good: seq<Peer>, p: Peer): seq<Peer> {
    Take([p] + Without(good, p), MAX_MEMBER_CANDIDATES)
  }

  /** The list after the peers of history answered, oldest first. */
  function GoodAfter(history: seq<Peer>): seq<Peer> {
    if history == [] then []
    else MoveToFront(GoodAfter(history[..|history| - 1]), history[|history| - 1])
  }

  /** The distinct peers of history, the one that answered last first. */
  function MostRecent(history: seq<Peer>): seq<Peer> {
    if history == [] then []
    else [history[|history| - 1]] + Without(MostRecent(history[..|history| - 1]), history[|history| - 1])
  }

  lemma {:induction false} MostRecentDistinct(history: seq<Peer>)
    ensures Distinct(MostRecent(history))
    ensures forall p :: p in MostRecent(history) <==> p in history
  {
    if history != [] {
      var front, last := history[..|history| - 1], history[|history| - 1];
      MostRecentDistinct(front);
      WithoutDistinct(MostRecent(front), last);
      WithoutMembers(MostRecent(front), last);
      assert history == front + [last];
    }
  }

  /** a answered at a time after which b never did. */
  ghost predicate AnsweredSince(history: seq<Peer>, a: Peer, b: Peer) {
    exists k: nat :: k < |history| && history[k] == a && b !in history[k..]
  }

  lemma AnsweredSinceLater(history: seq<Peer>, last: Peer, a: Peer, b: Peer)
    requires AnsweredSince(history, a, b) && b != last
    ensures AnsweredSince(history + [last], a, b)
  {
    var k: nat :| k < |history| && history[k] == a && b !in history[k..];
    var longer := history + [last];
    assert longer[k..] == history[k..] + [last] && longer[k] == a;
  }

  lemma LastIsAhead(front: seq<Peer>, last: Peer, b: Peer)
    requires b != last
    ensures AnsweredSince(front + [last], last, b)
  {
    var history := front + [last];
    assert history[|front|..] == [last];
    assert history[|front|] == last && b !in history[|front|..];
  }

  /** Two places of a list whose last element was moved to the front, traced back to the list. */
  lemma MovedOrder(r: seq<Peer>, last: Peer, i: nat, j: nat) returns (i': nat, j': nat)
    requires 0 < i < j < |[last] + Without(r, last)|
    ensures i' < j' < |r| && r[i'] == ([last] + Without(r, last))[i] && r[j'] == ([last] + Without(r, last))[j]
  {
    WithoutOrder(r, last, i - 1, j - 1);
    i', j' :| i' < j' < |r| && r[i'] == Without(r, last)[i - 1] && r[j'] == Without(r, last)[j - 1];
  }

  /** A peer stands ahead of another exactly because it answered more recently. */
  lemma {:induction false} MostRecentOrder(history: seq<Peer>, i: nat, j: nat)
    requires i < j < |MostRecent(history)|
    ensures AnsweredSince(history, MostRecent(history)[i], MostRecent(history)[j])
  {
    var front, last := history[..|history| - 1], history[|history| - 1];
    var r, m := MostRecent(front), MostRecent(history);
    assert history == front + [last] && m == [last] + Without(r, last);
    WithoutMembers(r, last);
    assert m[j] == Without(r, last)[j - 1] && m[j] in Without(r, last);
    if i == 0 {
      LastIsAhead(front, last, m[j]);
    } else {
      var i', j' := MovedOrder(r, last, i, j);
      MostRecentOrder(front, i', j');
      AnsweredSinceLater(front, last, m[i], m[j]);
    }
  }

  lemma {:induction false} WithoutOrder(s: seq<Peer>, x: Peer, i: nat, j: nat)
    requires i < j < |Without(s, x)|
    ensures exists i', j' :: 0 <= i' < j' < |s| && s[i'] == Without(s, x)[i] && s[j'] == Without(s, x)[j]
  {
    var rest := s[1..];
    if s[0] == x {
      WithoutOrder(rest, x, i, j);
      var i', j' :| 0 <= i' < j' < |rest| && rest[i'] == Without(s, x)[i] && rest[j'] == Without(s, x)[j];
      assert s[i' + 1] == rest[i'] && s[j' + 1] == rest[j'];
    } else if i == 0 {
      WithoutMembers(rest, x);
      assert Without(s, x)[j] == Without(rest, x)[j - 1];
      assert Without(rest, x)[j - 1] in rest;
      var j' :| 0 <= j' < |rest| && rest[j'] == Without(s, x)[j];
      assert s[0] == Without(s, x)[0] && s[j' + 1] == rest[j'];
    } else {
      WithoutOrder(rest, x, i - 1, j - 1);
      var i', j' :| 0 <= i' < j' < |rest| && rest[i'] == Without(rest, x)[i - 1] && rest[j'] == Without(rest, x)[j - 1];
      assert s[i' + 1] == rest[i'] && s[j' + 1] == rest[j'];
    }
  }

  /** Cutting to n before removing p loses nothing among the first n - 1 survivors. */
  lemma {:induction false} TakeWithout(s: seq<Peer>, p: Peer, n: nat)
    requires Distinct(s) && n > 0
    ensures Take(Without(Take(s, n), p), n - 1) == Take(Without(s, p), n - 1)
  {
    if |s| > n {
      WithoutConcat(s[..n], s[n..], p);
      assert s[..n] + s[n..] == s;
      WithoutDistinct(s[..n], p);
    }
  }

  /**
   Cutting the list after every answer keeps exactly what one cut at the end would:
   good is the first 64 of the distinct peers in most-recent-answer order.
   */
  lemma {:induction false} GoodIsMostRecent(history: seq<Peer>)
    ensures GoodAfter(history) == Take(MostRecent(history), MAX_MEMBER_CANDIDATES)
  {
    if history != [] {
      var front, p := history[..|history| - 1], history[|history| - 1];
      var r := MostRecent(front);
      GoodIsMostRecent(front);
      MostRecentDistinct(front);
      TakeWithout(r, p, MAX_MEMBER_CANDIDATES);
      var n := MAX_MEMBER_CANDIDATES;
      assert Take([p] + Without(Take(r, n), p), n) == [p] + Take(Without(Take(r, n), p), n - 1);
      assert Take([p] + Without(r, p), n) == [p] + Take(Without(r, p), n - 1);
    }
  }

  // ---- candidates ----

  predicate Eligible(p: Peer, self: Peer, relays: set<Peer>) {
    p != "" && p != self && p !in relays
  }

  /** The eligible peers of s, each at its first place only. */
  function Firsts(s: seq<Peer>, self: Peer, relays: set<Peer>): seq<Peer> {
    if s == [] then []
    else
      var front, p := Firsts(s[..|s| - 1], self, relays), s[|s| - 1];
      if Eligible(p, self, relays) && p !in front then front + [p] else front
  }

  lemma {:induction false} FirstsAre(s: seq<Peer>, self: Peer, relays: set<Peer>)
    ensures Distinct(Firsts(s, self, relays))
    ensures forall p :: p in Firsts(s, self, relays) <==> p in s && Eligible(p, self, relays)
    ensures forall p :: p in Firsts(s, self, relays) <==> p in s && p != "" && p != self && p !in relays
  {
    if s != [] {
      FirstsAre(s[..|s| - 1], self, relays);
      assert s == s[..|s| - 1] + [s[|s| - 1]];
    }
  }

  /** Peers appear in the order of their first places in s. */
  lemma {:induction false} FirstsInOrder(s: seq<Peer>, self: Peer, relays: set<Peer>, i: nat, j: nat)
    requires i < j < |Firsts(s, self, relays)|
    ensures exists k: nat :: k < |s| && s[k] == Firsts(s, self, relays)[i] && Firsts(s, self, relays)[j] !in s[..k + 1]
  {
    var front, p := s[..|s| - 1], s[|s| - 1];
    var f := Firsts(front, self, relays);
    var a, b := Firsts(s, self, relays)[i], Firsts(s, self, relays)[j];
    FirstsAre(front, self, relays);
    if j < |f| {
      FirstsInOrder(front, self, relays, i, j);
      var k: nat :| k < |front| && front[k] == a && b !in front[..k + 1];
      assert s[..k + 1] == front[..k + 1] && s[k] == a;
    } else {
      assert a == f[i] && a in front;
      var k: nat :| k < |front| && front[k] == a;
      assert s[..k + 1] == front[..k + 1] && s[k] == a;
      assert forall x :: x in front[..k + 1] ==> x in front;
    }
  }

  function Cooling(cooling: set<Peer>): Peer -> bool {
    p => p in cooling
  }

  function Ready(cooling: set<Peer>): Peer -> bool {
    p => p !in cooling
  }

  /** Ready peers first, cooling ones last, each group in its old order. */
  function Demoted(peers: seq<Peer>, cooling: set<Peer>): seq<Peer> {
    Filter(peers, Ready(cooling)) + Filter(peers, Cooling(cooling))
  }

  lemma GroupsAre(peers: seq<Peer>, cooling: set<Peer>)
    ensures forall p | p in Filter(peers, Ready(cooling)) :: p !in cooling
    ensures forall p | p in Filter(peers, Cooling(cooling)) :: p in cooling
  {
    FilterMembers(peers, Ready(cooling));
    FilterMembers(peers, Cooling(cooling));
    forall p | p in Filter(peers, Ready(cooling)) ensures p !in cooling { assert Ready(cooling)(p); }
    forall p | p in Filter(peers, Cooling(cooling)) ensures p in cooling { assert Cooling(cooling)(p); }
  }

  /** Demoting drops nobody and adds nobody, and no cooling peer precedes a ready one. */
  lemma DemotedKeepsEveryone(peers: seq<Peer>, cooling: set<Peer>)
    ensures multiset(Demoted(peers, cooling)) == multiset(peers)
    ensures forall i, j | 0 <= i < j < |Demoted(peers, cooling)| ::
              Demoted(peers, cooling)[i] in cooling ==> Demoted(peers, cooling)[j] in cooling
  {
    GroupsAre(peers, cooling);
    FilterSplit(peers, cooling);
    var ready, cool := Filter(peers, Ready(cooling)), Filter(peers, Cooling(cooling));
    assert forall i | 0 <= i < |ready| :: ready[i] in ready && ready[i] !in cooling;
    assert forall i | 0 <= i < |cool| :: cool[i] in cool && cool[i] in cooling;
  }

  /** Demoting is stable: within either group the order is the old one. */
  lemma DemotedIsStable(peers: seq<Peer>, cooling: set<Peer>)
    ensures Filter(Demoted(peers, cooling), Cooling(cooling)) == Filter(peers, Cooling(cooling))
    ensures Filter(Demoted(peers, cooling), Ready(cooling)) == Filter(peers, Ready(cooling))
  {
    GroupsAre(peers, cooling);
    var ready, cool := Filter(peers, Ready(cooling)), Filter(peers, Cooling(cooling));
    FilterConcat(ready, cool, Cooling(cooling));
    FilterConcat(ready, cool, Ready(cooling));
    FilterAll(ready, Ready(cooling));
    FilterAll(cool, Cooling(cooling));
    FilterNone(ready, Cooling(cooling));
    FilterNone(cool, Ready(cooling));
  }

  lemma {:induction false} FilterSplit(peers: seq<Peer>, cooling: set<Peer>)
    ensures multiset(Filter(peers, Ready(cooling)) + Filter(peers, Cooling(cooling))) == multiset(peers)
  {
    if peers != [] {
      FilterSplit(peers[1..], cooling);
      assert peers == [peers[0]] + peers[1..];
    }
  }

  lemma {:induction false} FilterAll(s: seq<Peer>, keep: Peer -> bool)
    requires forall p | p in s :: keep(p)
    ensures Filter(s, keep) == s
  {
    if s != [] {
      FilterAll(s[1..], keep);
      assert s == [s[0]] + s[1..];
    }
  }

  lemma {:induction false} FilterNone(s: seq<Peer>, keep: Peer -> bool)
    requires forall p | p in s :: !keep(p)
    ensures Filter(s, keep) == []
  {
    if s != [] {
      FilterNone(s[1..], keep);
    }
  }
}
