/**
 Which Warpnet users the gateway federates: a periodic scan of follower lists
 starts and stops a user's pollers with hysteresis, while accepted Follows start
 them from other goroutines. Each event below is one atomic effect on the state.
 */
module Outbound {
  import opened Basics

  type User = string
  type Ctx = nat // a poller context; each start makes a new one

  const EMPTY_SCANS_TO_STOP: nat := 2
  const MAX_PAGES: nat := 100

  /** Read: the scan read u's follower list (None on failure). Followed: an inbound Follow of u was accepted. */
  datatype Event = Read(user: User, count: Option<nat>) | Followed(user: User)

  datatype Effect = Started(user: User, ctx: Ctx) | Stopped(user: User, ctx: Ctx)

  datatype State = State(
    started: map<User, Ctx>,
    emptyScans: map<User, nat>,
    live: set<Ctx>,     // contexts not cancelled
    nextCtx: Ctx,       // the next context
    log: seq<Effect>)   // effective starts and stops, in order

  // ---- the code ----

  function Start(s: State, u: User): State {
    if u == "" || u in s.started then s
    else s.(started := s.started[u := s.nextCtx], live := s.live + {s.nextCtx}, nextCtx := s.nextCtx + 1,
            log := s.log + [Started(u, s.nextCtx)])
  }

  function Stop(s: State, u: User): State {
    if u !in s.started then s
    else s.(started := s.started - {u}, live := s.live - {s.started[u]}, log := s.log + [Stopped(u, s.started[u])])
  }

  function EmptyCount(s: State, u: User): nat {
    if u in s.emptyScans then s.emptyScans[u] else 0
  }

  function Apply(s: State, e: Event): State {
    match e
    case Followed(u) => Start(s, u)
    case Read(u, None) => s
    case Read(u, Some(n)) =>
      if n > 0 then Start(s.(emptyScans := s.emptyScans - {u}), u)
      else
        var t := s.(emptyScans := s.emptyScans[u := EmptyCount(s, u) + 1]);
        if EmptyCount(t, u) >= EMPTY_SCANS_TO_STOP then Stop(t, u) else t
  }

  function Run(s: State, history: seq<Event>): State {
    if history == [] then s else Apply(Run(s, history[..|history| - 1]), history[|history| - 1])
  }

  function After(history: seq<Event>): State {
    Run(State(map[], map[], {}, 0, []), history)
  }

  /** One user of a listing page; count is what reading their followers will give. */
  datatype Listed = Listed(user: User, bridged: bool, count: Option<nat>)

  datatype Page = Failed | Users(users: seq<Listed>, cursor: string)

  function Reads(users: seq<Listed>): seq<Event> {
    if users == [] then []
    else
      var l := users[|users| - 1];
      Reads(users[..|users| - 1]) + if l.bridged then [] else [Read(l.user, l.count)]
  }

  /** The scan ends with a page that is empty or does not lead on. */
  predicate LastPage(p: Page, cursor: string)
    requires p.Users?
  {
    p.users == [] || p.cursor == "" || p.cursor == cursor
  }

  /** The reads a scan performs from request k on; page k answers it. */
  function ScanReads(pages: seq<Page>, k: nat, cursor: string): seq<Event>
    decreases MAX_PAGES - k
  {
    if k >= MAX_PAGES || k >= |pages| || pages[k].Failed? then []
    else Reads(pages[k].users) + if LastPage(pages[k], cursor) then [] else ScanReads(pages, k + 1, pages[k].cursor)
  }

  /** The state a scan leaves behind, page by page. */
  function Scanned(s: State, pages: seq<Page>, k: nat, cursor: string): State
    decreases MAX_PAGES - k
  {
    if k >= MAX_PAGES || k >= |pages| || pages[k].Failed? then s
    else
      var t := Run(s, Reads(pages[k].users));
      if LastPage(pages[k], cursor) then t else Scanned(t, pages, k + 1, pages[k].cursor)
  }

  lemma {:induction false} RunConcat(s: State, a: seq<Event>, b: seq<Event>)
    ensures Run(s, a + b) == Run(Run(s, a), b)
  {
    if b == [] {
      assert a + b == a;
    } else {
      RunConcat(s, a, b[..|b| - 1]);
      assert (a + b)[..|a + b| - 1] == a + b[..|b| - 1];
    }
  }

  /** A scan has the effect of its reads, one after another. */
  lemma {:induction false} ScannedIsRun(s: State, pages: seq<Page>, k: nat, cursor: string)
    ensures Scanned(s, pages, k, cursor) == Run(s, ScanReads(pages, k, cursor))
    decreases MAX_PAGES - k
  {
    if k < MAX_PAGES && k < |pages| && pages[k].Users? {
      var here := Reads(pages[k].users);
      if LastPage(pages[k], cursor) {
        assert here + [] == here;
      } else {
        ScannedIsRun(Run(s, here), pages, k + 1, pages[k].cursor);
        RunConcat(s, here, ScanReads(pages, k + 1, pages[k].cursor));
      }
    }
  }

  class OutboundFederation {
    var started: map<User, Ctx>
    var emptyScans: map<User, nat>
    var live: set<Ctx>
    var nextCtx: Ctx
    ghost var log: seq<Effect>

    ghost function Abstract(): State
      reads this
    {
      State(started, emptyScans, live, nextCtx, log)
    }

    constructor ()
      ensures Abstract() == After([])
    {
      started, emptyScans, live, nextCtx, log := map[], map[], {}, 0, [];
    }

    method StartUser(u: User)
      modifies this
      ensures Abstract() == Start(old(Abstract()), u)
    {
      if u == "" || u in started {
        return;
      }
      started := started[u := nextCtx];
      live := live + {nextCtx};
      log := log + [Started(u, nextCtx)];
      nextCtx := nextCtx + 1;
    }

    method StopUser(u: User)
      modifies this
      ensures Abstract() == Stop(old(Abstract()), u)
    {
      if u !in started {
        return;
      }
      var ctx := started[u];
      started := started - {u};
      live := live - {ctx};
      log := log + [Stopped(u, ctx)];
    }

    method Reconcile(u: User, count: Option<nat>)
      modifies this
      ensures Abstract() == Apply(old(Abstract()), Read(u, count))
    {
      if count.None? {
        return;
      }
      if count.value > 0 {
        emptyScans := emptyScans - {u};
        StartUser(u);
        return;
      }
      emptyScans := emptyScans[u := (if u in emptyScans then emptyScans[u] else 0) + 1];
      if emptyScans[u] >= EMPTY_SCANS_TO_STOP {
        StopUser(u);
      }
    }

    method ScanPage(users: seq<Listed>)
      modifies this
      ensures Abstract() == Run(old(Abstract()), Reads(users))
    {
      for k := 0 to |users|
        invariant Abstract() == Run(old(Abstract()), Reads(users[..k]))
      {
        assert users[..k + 1][..k] == users[..k];
        ghost var prior := Reads(users[..k]);
        assert prior + [] == prior;
        if !users[k].bridged {
          assert (prior + [Read(users[k].user, users[k].count)])[..|prior|] == prior;
          Reconcile(users[k].user, users[k].count);
        }
      }
      assert users[..|users|] == users;
    }

    /** One scan; pages are the listing pages the network would serve, one request each. */
    method Scan(pages: seq<Page>)
      modifies this
      ensures Abstract() == Run(old(Abstract()), ScanReads(pages, 0, ""))
    {
      ScannedIsRun(Abstract(), pages, 0, "");
      ghost var outcome := Scanned(Abstract(), pages, 0, "");
      var cursor := "";
      for k := 0 to MAX_PAGES
        invariant k <= |pages|
        invariant outcome == Scanned(Abstract(), pages, k, cursor)
      {
        if k >= |pages| || pages[k].Failed? {
          return;
        }
        var users, next := pages[k].users, pages[k].cursor;
        ScanPage(users);
        if users == [] || next == "" || next == cursor {
          return;
        }
        cursor := next;
      }
    }
  }

  // ---- hysteresis ----

  /** Consecutive empty successful reads of u since its last non-empty one. */
  function TrailingEmpty(history: seq<Event>, u: User): nat {
    if history == [] then 0
    else
      var before := TrailingEmpty(history[..|history| - 1], u);
      match history[|history| - 1]
      case Read(v, Some(n)) => if v != u then before else if n == 0 then before + 1 else 0
      case _ => before
  }

  /** emptyScans counts exactly the trailing empty reads, however reads and Follows interleave. */
  lemma {:induction false} CountsTrailingEmpties(history: seq<Event>, u: User)
    ensures EmptyCount(After(history), u) == TrailingEmpty(history, u)
    ensures u in After(history).emptyScans <==> TrailingEmpty(history, u) > 0
  {
    if history != [] {
      CountsTrailingEmpties(history[..|history| - 1], u);
    }
  }

  /**
   An event stops a federated user exactly when it is an empty read of that user following, among
   successful reads, another empty one.
   */
  lemma StopsOnTwoEmpties(history: seq<Event>, e: Event, u: User)
    requires u in After(history).started
    ensures u !in After(history + [e]).started <==>
            e == Read(u, Some(0)) && TrailingEmpty(history, u) + 1 >= EMPTY_SCANS_TO_STOP
  {
    assert (history + [e])[..|history|] == history;
    CountsTrailingEmpties(history, u);
  }

  /** What a failed read changes: nothing. */
  lemma FailedReadChangesNothing(history: seq<Event>, u: User, v: User)
    ensures After(history + [Read(u, None)]) == After(history)
    ensures TrailingEmpty(history + [Read(u, None)], v) == TrailingEmpty(history, v)
  {
    assert (history + [Read(u, None)])[..|history|] == history;
  }

  /** Other users' reads, failed reads and Follows: no successful read of u. */
  ghost predicate Unread(events: seq<Event>, u: User) {
    forall e | e in events :: !(e.Read? && e.user == u && e.count.Some?)
  }

  lemma {:induction false} UnreadKeeps(history: seq<Event>, mid: seq<Event>, u: User)
    requires Unread(mid, u)
    ensures TrailingEmpty(history + mid, u) == TrailingEmpty(history, u)
    ensures u in After(history).started ==> u in After(history + mid).started
  {
    if mid == [] {
      assert history + mid == history;
    } else {
      var front, e := mid[..|mid| - 1], mid[|mid| - 1];
      assert mid == front + [e] && e in mid;
      UnreadKeeps(history, front, u);
      assert history + mid == history + front + [e];
      assert (history + front + [e])[..|history + front|] == history + front;
      if u in After(history + front).started {
        StopsOnTwoEmpties(history + front, e, u);
      }
    }
  }

  /**
   After a Follow the first successful read of u, if empty, stops it exactly when the last one before
   the Follow was empty too, whatever other events lie between: starting does not clear the count.
   */
  lemma OneEmptyReadCanStop(history: seq<Event>, mid: seq<Event>, u: User)
    requires u != "" && Unread(mid, u)
    ensures u in After(history + [Followed(u)] + mid).started
    ensures u !in After(history + [Followed(u)] + mid + [Read(u, Some(0))]).started <==> TrailingEmpty(history, u) >= 1
  {
    var h := history + [Followed(u)];
    assert h[..|history|] == history;
    assert u in After(h).started && TrailingEmpty(h, u) == TrailingEmpty(history, u);
    UnreadKeeps(h, mid, u);
    StopsOnTwoEmpties(h + mid, Read(u, Some(0)), u);
  }

  /** A concrete history in which a user is stopped by its only empty read since it was started. */
  lemma StoppedByASingleEmptyRead(u: User)
    requires u != ""
    ensures u !in After([Read(u, Some(0)), Followed(u), Read(u, Some(0))]).started
    ensures u in After([Read(u, Some(0)), Followed(u)]).started
  {
    var h := [Read(u, Some(0))];
    assert h[..0] == [];
    assert Apply(After([]), h[0]) == After(h);
    OneEmptyReadCanStop(h, [], u);
    assert h + [Followed(u)] + [] == h + [Followed(u)];
    assert h + [Followed(u)] + [] + [Read(u, Some(0))] == [Read(u, Some(0)), Followed(u), Read(u, Some(0))];
    assert h + [Followed(u)] == [Read(u, Some(0)), Followed(u)];
  }

  /** A second trailing empty read leaves a user stopped, whatever it was before. */
  lemma SecondEmptyStops(history: seq<Event>, u: User)
    requires TrailingEmpty(history, u) + 1 >= EMPTY_SCANS_TO_STOP
    ensures u !in After(history + [Read(u, Some(0))]).started
  {
    assert (history + [Read(u, Some(0))])[..|history|] == history;
    CountsTrailingEmpties(history, u);
  }

  /** A user read empty twice, with no other successful read of theirs between, is not federated afterwards. */
  lemma ReadEmptyTwiceIsStopped(history: seq<Event>, mid: seq<Event>, u: User)
    requires Unread(mid, u)
    ensures u !in After(history + [Read(u, Some(0))] + mid + [Read(u, Some(0))]).started
  {
    var h := history + [Read(u, Some(0))];
    assert h[..|history|] == history;
    assert TrailingEmpty(h, u) >= 1;
    UnreadKeeps(h, mid, u);
    SecondEmptyStops(h + mid, u);
  }

  lemma {:induction false} ReadsConcat(a: seq<Listed>, b: seq<Listed>)
    ensures Reads(a + b) == Reads(a) + Reads(b)
  {
    if b == [] {
      assert a + b == a;
    } else {
      ReadsConcat(a, b[..|b| - 1]);
      assert (a + b)[..|a + b| - 1] == a + b[..|b| - 1];
    }
  }

  lemma ReadsOfOne(l: Listed)
    requires !l.bridged
    ensures Reads([l]) == [Read(l.user, l.count)]
  {
    assert [l][..0] == [];
  }

  /** So one scan stops a user it lists twice without followers, wherever on its pages. */
  lemma ListedTwiceIsStopped(history: seq<Event>, before: seq<Listed>, between: seq<Listed>, u: User)
    requires Unread(Reads(between), u)
    ensures var l := Listed(u, false, Some(0));
            u !in After(history + Reads(before + [l] + between + [l])).started
  {
    var e := Read(u, Some(0));
    ReadsTwice(before, between, u);
    assert history + (Reads(before) + [e] + Reads(between) + [e]) ==
           history + Reads(before) + [e] + Reads(between) + [e];
    ReadEmptyTwiceIsStopped(history + Reads(before), Reads(between), u);
  }

  lemma ReadsTwice(before: seq<Listed>, between: seq<Listed>, u: User)
    ensures var l, e := Listed(u, false, Some(0)), Read(u, Some(0));
            Reads(before + [l] + between + [l]) == Reads(before) + [e] + Reads(between) + [e]
  {
    var l := Listed(u, false, Some(0));
    ReadsOfOne(l);
    ReadsConcat(before + [l] + between, [l]);
    ReadsConcat(before + [l], between);
    ReadsConcat(before, [l]);
  }

  // ---- who is federated ----

  /** A Follow of u, or a read that found followers. */
  predicate Wanted(e: Event, u: User) {
    e == Followed(u) || (e.Read? && e.user == u && e.count.Some? && e.count.value > 0)
  }

  /** Event j is an empty read of u and not the first of its row. */
  predicate Unwanted(history: seq<Event>, j: nat, u: User)
    requires j < |history|
  {
    history[j] == Read(u, Some(0)) && TrailingEmpty(history[..j], u) >= 1
  }

  /** u was wanted at some point after which no stop followed. */
  ghost predicate WantedSince(history: seq<Event>, i: nat, u: User) {
    i < |history| && Wanted(history[i], u) && forall j: nat | i < j < |history| :: !Unwanted(history, j, u)
  }

  lemma WantedSincePrefix(history: seq<Event>, i: nat, u: User)
    requires history != [] && i < |history| - 1
    ensures WantedSince(history, i, u) <==>
            WantedSince(history[..|history| - 1], i, u) && !Unwanted(history, |history| - 1, u)
  {
    var front := history[..|history| - 1];
    forall j: nat | j < |front|
      ensures Unwanted(front, j, u) == Unwanted(history, j, u)
    {
      assert front[..j] == history[..j];
    }
  }

  /**
   Over every history, u is federated exactly when it is a user at all and, since the last empty read
   that followed another empty one, there was a Follow of u or a read that found followers.
   */
  lemma {:induction false} FederatedExactly(history: seq<Event>, u: User)
    ensures u in After(history).started <==> u != "" && exists i: nat :: WantedSince(history, i, u)
  {
    if history != [] {
      var front, e := history[..|history| - 1], history[|history| - 1];
      FederatedExactly(front, u);
      CountsTrailingEmpties(front, u);
      assert front + [e] == history;
      if Wanted(e, u) {
        assert WantedSince(history, |front|, u);
      } else {
        forall i: nat | i < |front|
          ensures WantedSince(history, i, u) <==> WantedSince(front, i, u) && !Unwanted(history, |front|, u)
        {
          WantedSincePrefix(history, i, u);
        }
        if exists i: nat :: WantedSince(front, i, u) {
          var i: nat :| WantedSince(front, i, u);
          assert WantedSince(history, i, u) <==> !Unwanted(history, |front|, u);
        }
        assert u in After(history).started <==> u in After(front).started && !Unwanted(history, |front|, u);
      }
    }
  }

  /** What one listing entry makes the scan read, and what a list of them does. */
  lemma ReadsExactly(l: Listed, a: seq<Listed>, b: seq<Listed>)
    ensures Reads([l]) == if l.bridged then [] else [Read(l.user, l.count)]
    ensures Reads(a + b) == Reads(a) + Reads(b)
  {
    assert [l][..0] == [];
    ReadsConcat(a, b);
  }

  /** The users of pages k to m. */
  function Between(pages: seq<Page>, k: nat, m: nat): seq<Listed>
    requires k <= m <= |pages| && forall i | k <= i < m :: pages[i].Users?
    decreases m - k
  {
    if k == m then [] else pages[k].users + Between(pages, k + 1, m)
  }

  /** The cursor request k carries, given the one of an earlier request. */
  function CursorAt(pages: seq<Page>, k: nat): string {
    if k == 0 || k > |pages| || pages[k - 1].Failed? then "" else pages[k - 1].cursor
  }

  /** Request i is followed by another: its page has users and leads to a new cursor. */
  predicate LeadsOn(pages: seq<Page>, i: nat)
    requires i < |pages|
  {
    pages[i].Users? && pages[i].users != [] && pages[i].cursor != "" && pages[i].cursor != CursorAt(pages, i)
  }

  /** The requests k to m are made and answered, and there is no further answer. */
  ghost predicate Span(pages: seq<Page>, k: nat, m: nat) {
    && k <= m <= |pages| && m <= MAX_PAGES
    && (forall i | k <= i < m :: pages[i].Users?)
    && (forall i | k <= i < m - 1 :: LeadsOn(pages, i))
    && (m == MAX_PAGES || m == |pages| || pages[m].Failed? || (m > k && !LeadsOn(pages, m - 1)))
  }

  lemma ScanReadsOnward(pages: seq<Page>, k: nat)
    requires k < MAX_PAGES && k < |pages| && pages[k].Users?
    ensures ScanReads(pages, k, CursorAt(pages, k)) ==
            Reads(pages[k].users) + if LeadsOn(pages, k) then ScanReads(pages, k + 1, CursorAt(pages, k + 1)) else []
  {
  }

  lemma SpanLonger(pages: seq<Page>, k: nat, m: nat)
    requires k < |pages| && k < MAX_PAGES && pages[k].Users?
    requires if LeadsOn(pages, k) then Span(pages, k + 1, m) else m == k + 1
    ensures Span(pages, k, m) && Between(pages, k, m) == pages[k].users + Between(pages, k + 1, m)
  {
    if LeadsOn(pages, k) && m == k + 1 {
      assert LeadsOn(pages, m - 1);
    }
  }

  lemma {:induction false} ScanSpans(pages: seq<Page>, k: nat) returns (m: nat)
    requires k <= |pages| && k <= MAX_PAGES
    ensures Span(pages, k, m) && ScanReads(pages, k, CursorAt(pages, k)) == Reads(Between(pages, k, m))
    decreases MAX_PAGES - k
  {
    if k == MAX_PAGES || k == |pages| || pages[k].Failed? {
      m := k;
    } else {
      ScanReadsOnward(pages, k);
      if LeadsOn(pages, k) {
        m := ScanSpans(pages, k + 1);
      } else {
        m := k + 1;
      }
      SpanLonger(pages, k, m);
      ReadsConcat(pages[k].users, Between(pages, k + 1, m));
    }
  }

  /**
   A scan reads the followers of exactly the users of the pages up to the first that is empty, repeats
   its cursor or has none, or up to a failed one or the hundredth.
   */
  lemma ScanCovers(pages: seq<Page>) returns (m: nat)
    ensures Span(pages, 0, m) && ScanReads(pages, 0, "") == Reads(Between(pages, 0, m))
  {
    m := ScanSpans(pages, 0);
  }

  /** A read that finds followers starts the user, whatever came before. */
  lemma FollowersStart(history: seq<Event>, u: User, n: nat)
    requires u != "" && n > 0
    ensures u in After(history + [Read(u, Some(n))]).started
  {
    assert (history + [Read(u, Some(n))])[..|history|] == history;
  }

  lemma ReadsAround(before: seq<Listed>, l: Listed, after: seq<Listed>)
    requires !l.bridged
    ensures Reads(before + [l] + after) == Reads(before) + [Read(l.user, l.count)] + Reads(after)
  {
    ReadsExactly(l, before, [l]);
    ReadsConcat(before + [l], after);
  }

  /** A listed user that has followers is federated once its entry was read, and until an empty read. */
  lemma ListedIsStarted(history: seq<Event>, before: seq<Listed>, after: seq<Listed>, u: User, n: nat)
    requires u != "" && n > 0 && Unread(Reads(after), u)
    ensures u in After(history + Reads(before + [Listed(u, false, Some(n))] + after)).started
  {
    var h, e := history + Reads(before), Read(u, Some(n));
    ReadsAround(before, Listed(u, false, Some(n)), after);
    FollowersStart(h, u, n);
    UnreadKeeps(h + [e], Reads(after), u);
    assert history + (Reads(before) + [e] + Reads(after)) == h + [e] + Reads(after);
  }

  // ---- starts and stops ----

  /** The context of u's last start, unless a stop followed; None also where the log is out of step. */
  function Current(log: seq<Effect>, u: User): Option<Ctx> {
    if log == [] then None
    else
      match log[|log| - 1]
      case Started(v, c) => if v == u then Some(c) else Current(log[..|log| - 1], u)
      case Stopped(v, _) => if v == u then None else Current(log[..|log| - 1], u)
  }

  /** Per user, starts and stops alternate beginning with a start, and a stop cancels the context last started. */
  ghost predicate Alternates(log: seq<Effect>) {
    log == [] ||
    (var before, last := log[..|log| - 1], log[|log| - 1];
     Alternates(before) &&
     match last
     case Started(u, c) => Current(before, u).None?
     case Stopped(u, c) => Current(before, u) == Some(c))
  }

  ghost predicate LogMatches(s: State) {
    && Alternates(s.log)
    && forall u :: Current(s.log, u) == if u in s.started then Some(s.started[u]) else None
  }

  ghost predicate OneContextEach(s: State) {
    && (forall u | u in s.started :: s.started[u] in s.live && s.started[u] < s.nextCtx)
    && (forall u, v | u in s.started && v in s.started && u != v :: s.started[u] != s.started[v])
    && (forall c | c in s.live :: exists u :: u in s.started && s.started[u] == c)
  }

  lemma StartLogs(s: State, u: User)
    requires LogMatches(s)
    ensures LogMatches(Start(s, u))
  {
    var t := Start(s, u);
    if t != s {
      assert t.log[..|t.log| - 1] == s.log;
    }
  }

  lemma StopLogs(s: State, u: User)
    requires LogMatches(s)
    ensures LogMatches(Stop(s, u))
  {
    var t := Stop(s, u);
    if t != s {
      assert t.log[..|t.log| - 1] == s.log;
    }
  }

  lemma StartContexts(s: State, u: User)
    requires OneContextEach(s)
    ensures OneContextEach(Start(s, u))
  {
    var t := Start(s, u);
    if t != s {
      forall c | c in t.live
        ensures exists v :: v in t.started && t.started[v] == c
      {
        if c == s.nextCtx {
          assert t.started[u] == c;
        } else {
          var v :| v in s.started && s.started[v] == c;
          assert t.started[v] == c;
        }
      }
    }
  }

  lemma StopContexts(s: State, u: User)
    requires OneContextEach(s)
    ensures OneContextEach(Stop(s, u))
  {
    var t := Stop(s, u);
    if t != s {
      forall c | c in t.live
        ensures exists v :: v in t.started && t.started[v] == c
      {
        var v :| v in s.started && s.started[v] == c;
        assert t.started[v] == c;
      }
    }
  }

  /**
   Over every history, effective starts and stops of a user alternate, and the contexts not
   cancelled are exactly one for each federated user.
   */
  lemma {:induction false} OneLivePollerPerUser(history: seq<Event>)
    ensures LogMatches(After(history)) && OneContextEach(After(history))
  {
    if history != [] {
      var s, e := After(history[..|history| - 1]), history[|history| - 1];
      OneLivePollerPerUser(history[..|history| - 1]);
      match e
      case Followed(u) =>
        StartLogs(s, u);
        StartContexts(s, u);
      case Read(u, None) =>
      case Read(u, Some(n)) =>
        var t := s.(emptyScans := if n > 0 then s.emptyScans - {u} else s.emptyScans[u := EmptyCount(s, u) + 1]);
        StartLogs(t, u);
        StartContexts(t, u);
        StopLogs(t, u);
        StopContexts(t, u);
    }
  }
}
