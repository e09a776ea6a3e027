/**
 The bounded pool that renders a page's items concurrently: a dispatcher that
 takes one of eight tokens per item, a worker per item that writes its own slot,
 and a wait for all of them. Three places use it: the outbox page, the reply page
 and the follow collection. A run is any schedule of dispatcher and workers.
 */
module WorkerPool {
  import opened Basics

  const MAX_CONCURRENT: nat := 8

  /** What becomes of one item: no worker is started for it, or its worker renders it into a value or nothing. */
  datatype Item<+B> = Skipped | Rendered(result: Option<B>)

  function Value<B>(it: Item<B>): Option<B> {
    if it.Skipped? then None else it.result
  }

  datatype State<+B> = State(
    next: nat,             // the dispatcher's place in the items
    working: set<nat>,     // workers rendering, holding a token
    stored: set<nat>,      // workers that wrote their slot, still holding their token
    released: set<nat>,    // workers that gave their token back, not yet counted as done
    tokens: int,           // tokens taken
    pending: int,          // the wait group's count
    out: seq<Option<B>>)   // one slot per item

  datatype Step = Dispatch | Store(i: nat) | Release(i: nat) | Finish(i: nat)

  function Init<B>(items: seq<Item<B>>): State<B> {
    State(0, {}, {}, {}, 0, 0, seq(|items|, _ => None))
  }

  predicate Enabled<B>(items: seq<Item<B>>, s: State<B>, e: Step) {
    match e
    case Dispatch => s.next < |items| && (items[s.next].Skipped? || s.tokens < MAX_CONCURRENT)
    case Store(i) => i in s.working && i < |items| && i < |s.out|
    case Release(i) => i in s.stored
    case Finish(i) => i in s.released
  }

  function Apply<B>(items: seq<Item<B>>, s: State<B>, e: Step): State<B>
    requires Enabled(items, s, e)
  {
    match e
    case Dispatch =>
      if items[s.next].Skipped? then s.(next := s.next + 1)
      else s.(next := s.next + 1, working := s.working + {s.next}, tokens := s.tokens + 1, pending := s.pending + 1)
    case Store(i) =>
      s.(working := s.working - {i}, stored := s.stored + {i},
         out := if Value(items[i]).Some? then s.out[i := Value(items[i])] else s.out)
    case Release(i) => s.(stored := s.stored - {i}, released := s.released + {i}, tokens := s.tokens - 1)
    case Finish(i) => s.(released := s.released - {i}, pending := s.pending - 1)
  }

  /** The dispatcher is through and the wait group is at zero. */
  predicate Returns<B>(items: seq<Item<B>>, s: State<B>) {
    s.next >= |items| && s.pending == 0
  }

  /** The filled slots, in order. */
  function Collect<B>(out: seq<Option<B>>): seq<B> {
    if out == [] then []
    else Collect(out[..|out| - 1]) + (if out[|out| - 1].Some? then [out[|out| - 1].value] else [])
  }

  ghost predicate IsRun<B>(items: seq<Item<B>>, run: seq<State<B>>, steps: seq<Step>) {
    && |run| == |steps| + 1 && run[0] == Init(items)
    && forall k | 0 <= k < |steps| :: Enabled(items, run[k], steps[k]) && run[k + 1] == Apply(items, run[k], steps[k])
  }

  /** One item after another, keeping what renders. */
  function Sequential<B>(items: seq<Item<B>>): seq<B> {
    if items == [] then []
    else Sequential(items[..|items| - 1]) +
         (var v := Value(items[|items| - 1]); if v.Some? then [v.value] else [])
  }

  // ---- what every schedule keeps ----

  ghost predicate Workers<B>(items: seq<Item<B>>, s: State<B>) {
    && s.next <= |items|
    && (forall i | i in s.working :: i !in s.stored && i !in s.released)
    && (forall i | i in s.stored :: i !in s.released)
    && s.tokens == |s.working| + |s.stored| && s.tokens <= MAX_CONCURRENT
    && s.pending == |s.working| + |s.stored| + |s.released|
    && (forall i: nat | i in s.working || i in s.stored || i in s.released :: i < s.next)
  }

  /** A slot is filled exactly when its own worker has been through it. */
  ghost predicate Slots<B>(items: seq<Item<B>>, s: State<B>) {
    && |s.out| == |items|
    && forall i: nat | i < |items| ::
         s.out[i] == if i < s.next && i !in s.working then Value(items[i]) else None
  }

  lemma DispatchWorkers<B>(items: seq<Item<B>>, s: State<B>)
    requires Workers(items, s) && Enabled(items, s, Dispatch)
    ensures Workers(items, Apply(items, s, Dispatch))
    ensures Measure(items, Apply(items, s, Dispatch)) < Measure(items, s)
  {
    var i := s.next;
    assert i !in s.working && i !in s.stored && i !in s.released;
    assert |s.working + {i}| == |s.working| + 1;
  }

  lemma StoreWorkers<B>(items: seq<Item<B>>, s: State<B>, i: nat)
    requires Workers(items, s) && Enabled(items, s, Store(i))
    ensures Workers(items, Apply(items, s, Store(i)))
    ensures Measure(items, Apply(items, s, Store(i))) < Measure(items, s)
  {
    assert |s.working - {i}| == |s.working| - 1;
    assert i !in s.stored && |s.stored + {i}| == |s.stored| + 1;
  }

  lemma ReleaseWorkers<B>(items: seq<Item<B>>, s: State<B>, i: nat)
    requires Workers(items, s) && Enabled(items, s, Release(i))
    ensures Workers(items, Apply(items, s, Release(i)))
    ensures Measure(items, Apply(items, s, Release(i))) < Measure(items, s)
  {
    assert |s.stored - {i}| == |s.stored| - 1;
    assert i !in s.released && |s.released + {i}| == |s.released| + 1;
  }

  lemma FinishWorkers<B>(items: seq<Item<B>>, s: State<B>, i: nat)
    requires Workers(items, s) && Enabled(items, s, Finish(i))
    ensures Workers(items, Apply(items, s, Finish(i)))
    ensures Measure(items, Apply(items, s, Finish(i))) < Measure(items, s)
  {
    assert |s.released - {i}| == |s.released| - 1;
  }

  lemma StepWorkers<B>(items: seq<Item<B>>, s: State<B>, e: Step)
    requires Workers(items, s) && Enabled(items, s, e)
    ensures Workers(items, Apply(items, s, e)) && Measure(items, Apply(items, s, e)) < Measure(items, s)
  {
    match e
    case Dispatch => DispatchWorkers(items, s);
    case Store(i) => StoreWorkers(items, s, i);
    case Release(i) => ReleaseWorkers(items, s, i);
    case Finish(i) => FinishWorkers(items, s, i);
  }

  lemma StepSlots<B>(items: seq<Item<B>>, s: State<B>, e: Step)
    requires Slots(items, s) && Enabled(items, s, e) && s.next <= |items|
    requires forall i: nat | i in s.working :: i < s.next
    ensures Slots(items, Apply(items, s, e))
  {
    var t := Apply(items, s, e);
    forall j: nat | j < |items|
      ensures t.out[j] == if j < t.next && j !in t.working then Value(items[j]) else None
    {
      assert s.out[j] == if j < s.next && j !in s.working then Value(items[j]) else None;
    }
  }

  /** Steps a schedule can still take: four per item not dispatched, fewer per worker under way. */
  function Measure<B>(items: seq<Item<B>>, s: State<B>): int {
    4 * (|items| - s.next) + 3 * |s.working| + 2 * |s.stored| + |s.released|
  }

  /** At most eight workers hold a token, and no slot holds anything but its own item's value. */
  lemma {:induction false} PoolInv<B>(items: seq<Item<B>>, run: seq<State<B>>, steps: seq<Step>, k: nat)
    requires IsRun(items, run, steps) && k < |run|
    ensures Workers(items, run[k]) && Slots(items, run[k])
    ensures |run[k].working + run[k].stored| <= MAX_CONCURRENT
  {
    if k > 0 {
      PoolInv(items, run, steps, k - 1);
      StepWorkers(items, run[k - 1], steps[k - 1]);
      StepSlots(items, run[k - 1], steps[k - 1]);
    }
    assert run[k].working !! run[k].stored;
  }

  lemma {:induction false} CollectIsSequential<B>(items: seq<Item<B>>, out: seq<Option<B>>)
    requires |out| == |items| && forall i: nat | i < |items| :: out[i] == Value(items[i])
    ensures Collect(out) == Sequential(items)
  {
    if items != [] {
      CollectIsSequential(items[..|items| - 1], out[..|out| - 1]);
    }
  }

  /**
   Whatever the schedule, the pool returns exactly what rendering one item after another would, and
   at most eight workers hold a token on the way.
   */
  lemma ScheduleIndependent<B>(items: seq<Item<B>>, run: seq<State<B>>, steps: seq<Step>, k: nat)
    requires IsRun(items, run, steps) && k < |run| && Returns(items, run[k])
    ensures Collect(run[k].out) == Sequential(items)
    ensures forall j | 0 <= j < |run| :: |run[j].working + run[j].stored| <= MAX_CONCURRENT
  {
    forall j | 0 <= j < |run|
      ensures |run[j].working + run[j].stored| <= MAX_CONCURRENT
    {
      PoolInv(items, run, steps, j);
    }
    PoolInv(items, run, steps, k);
    CollectIsSequential(items, run[k].out);
  }

  /** One worker at most writes a slot; once it is through, the slot stays as it is, filled or empty. */
  lemma {:induction false} WrittenOnce<B>(items: seq<Item<B>>, run: seq<State<B>>, steps: seq<Step>,
                                          j: nat, k: nat, i: nat)
    requires IsRun(items, run, steps) && j <= k < |run| && i < |items|
    ensures run[j].next <= run[k].next
    ensures i < run[j].next && i !in run[j].working ==> i !in run[k].working
    ensures |run[j].out| == |run[k].out| == |items|
    ensures run[j].out[i].Some? ==> run[k].out[i] == run[j].out[i]
    ensures i < run[j].next && i !in run[j].working ==> run[k].out[i] == run[j].out[i] == Value(items[i])
    decreases k
  {
    NextGrows(items, run, steps, j, k, i);
    SlotValue(items, run, steps, j, i);
    SlotValue(items, run, steps, k, i);
  }

  lemma SlotValue<B>(items: seq<Item<B>>, run: seq<State<B>>, steps: seq<Step>, k: nat, i: nat)
    requires IsRun(items, run, steps) && k < |run| && i < |items|
    ensures |run[k].out| == |items|
    ensures run[k].out[i] == if i < run[k].next && i !in run[k].working then Value(items[i]) else None
  {
    PoolInv(items, run, steps, k);
  }

  lemma {:induction false} NextGrows<B>(items: seq<Item<B>>, run: seq<State<B>>, steps: seq<Step>,
                                        j: nat, k: nat, i: nat)
    requires IsRun(items, run, steps) && j <= k < |run|
    ensures run[j].next <= run[k].next
    ensures i < run[j].next && i !in run[j].working ==> i !in run[k].working
    decreases k
  {
    if j < k {
      NextGrows(items, run, steps, j, k - 1, i);
      assert run[k] == Apply(items, run[k - 1], steps[k - 1]);
    }
  }

  /** No schedule gets stuck before the pool can return. */
  lemma NeverStuck<B>(items: seq<Item<B>>, run: seq<State<B>>, steps: seq<Step>, k: nat)
    requires IsRun(items, run, steps) && k < |run| && !Returns(items, run[k])
    ensures exists e :: Enabled(items, run[k], e)
  {
    PoolInv(items, run, steps, k);
    var s := run[k];
    if s.working != {} {
      var i: nat :| i in s.working;
      assert Enabled(items, s, Store(i));
    } else if s.stored != {} {
      var i: nat :| i in s.stored;
      assert Enabled(items, s, Release(i));
    } else if s.released != {} {
      var i: nat :| i in s.released;
      assert Enabled(items, s, Finish(i));
    } else {
      assert Enabled(items, s, Dispatch);
    }
  }

  /** Every schedule ends, after at most four steps per item. */
  lemma {:induction false} SchedulesEnd<B>(items: seq<Item<B>>, run: seq<State<B>>, steps: seq<Step>, k: nat)
    requires IsRun(items, run, steps) && k < |run|
    ensures 0 <= Measure(items, run[k]) <= 4 * |items| - k
  {
    RunWorkers(items, run, steps, k);
    if k > 0 {
      SchedulesEnd(items, run, steps, k - 1);
      RunWorkers(items, run, steps, k - 1);
      assert Enabled(items, run[k - 1], steps[k - 1]) && run[k] == Apply(items, run[k - 1], steps[k - 1]);
      StepWorkers(items, run[k - 1], steps[k - 1]);
    }
  }

  lemma RunWorkers<B>(items: seq<Item<B>>, run: seq<State<B>>, steps: seq<Step>, k: nat)
    requires IsRun(items, run, steps) && k < |run|
    ensures Workers(items, run[k])
  {
    PoolInv(items, run, steps, k);
  }

  // ---- the reply page walk on top of it ----

  const MAX_REPLIES: nat := 50
  const MAX_PAGES: nat := 5

  /** The pages a replies collection links, each as its items; the list ends where a page is missing. */
  function Walk<B>(pages: seq<seq<Item<B>>>, left: nat, got: seq<B>): seq<B>
    decreases left
  {
    if left == 0 || |got| >= MAX_REPLIES || pages == [] then got
    else Walk(pages[1..], left - 1, got + Sequential(Take(pages[0], MAX_REPLIES - |got|)))
  }

  /** pool renders one page: by ScheduleIndependent, any schedule's result is the sequential one. */
  method ApReplies<B>(pages: seq<seq<Item<B>>>) returns (tweets: seq<B>)
    ensures tweets == Walk(pages, MAX_PAGES, [])
  {
    tweets := [];
    var p := 0;
    while p < MAX_PAGES && |tweets| < MAX_REPLIES && p < |pages|
      invariant 0 <= p <= MAX_PAGES && p <= |pages|
      invariant Walk(pages, MAX_PAGES, []) == Walk(pages[p..], MAX_PAGES - p, tweets)
    {
      var items, room := pages[p], MAX_REPLIES - |tweets|;
      if |items| > room {
        items := items[..room];
      }
      tweets := tweets + Sequential(items);
      assert pages[p..][1..] == pages[p + 1..];
      p := p + 1;
    }
  }

  /** a is what remains of b when some of its elements are dropped. */
  ghost predicate Subsequence<B(!new)>(a: seq<B>, b: seq<B>) {
    if a == [] then true
    else b != [] && (Subsequence(a, b[..|b| - 1]) ||
                     (a[|a| - 1] == b[|b| - 1] && Subsequence(a[..|a| - 1], b[..|b| - 1])))
  }

  function Everything<B>(pages: seq<seq<Item<B>>>): seq<B> {
    if pages == [] then [] else Sequential(pages[0]) + Everything(pages[1..])
  }

  lemma {:induction false} SequentialSize<B>(items: seq<Item<B>>)
    ensures |Sequential(items)| <= |items|
    ensures (forall it | it in items :: Value(it).Some?) ==> |Sequential(items)| == |items|
  {
    if items != [] {
      SequentialSize(items[..|items| - 1]);
      assert forall it | it in items[..|items| - 1] :: it in items;
    }
  }

  /** Never more than fifty replies. */
  lemma {:induction false} WalkBounded<B>(pages: seq<seq<Item<B>>>, left: nat, got: seq<B>)
    requires |got| <= MAX_REPLIES
    ensures |Walk(pages, left, got)| <= MAX_REPLIES
    ensures got <= Walk(pages, left, got)
    decreases left
  {
    if left > 0 && |got| < MAX_REPLIES && pages != [] {
      var kept := Take(pages[0], MAX_REPLIES - |got|);
      SequentialSize(kept);
      WalkBounded(pages[1..], left - 1, got + Sequential(kept));
    }
  }

  lemma {:induction false} SequentialConcat<B>(a: seq<Item<B>>, b: seq<Item<B>>)
    ensures Sequential(a + b) == Sequential(a) + Sequential(b)
  {
    if b == [] {
      assert a + b == a;
    } else {
      SequentialConcat(a, b[..|b| - 1]);
      assert (a + b)[..|a + b| - 1] == a + b[..|b| - 1];
    }
  }

  /** One item adds its rendering, if its worker made one, and an item without a worker adds nothing. */
  lemma SequentialOfOne<B>(it: Item<B>)
    ensures Sequential([it]) == match it case Skipped => [] case Rendered(None) => [] case Rendered(Some(b)) => [b]
  {
    assert [it][..0] == [];
  }

  lemma KeptRenders<B>(page: seq<Item<B>>, room: nat)
    requires forall it | it in page :: Value(it).Some?
    ensures |Sequential(Take(page, room))| == |Take(page, room)|
  {
    assert forall it | it in Take(page, room) :: it in page;
    SequentialSize(Take(page, room));
  }

  /** When every item renders, the walk returns exactly the first fifty replies of its five pages. */
  lemma {:induction false} WalkIsFirstFifty<B>(pages: seq<seq<Item<B>>>, left: nat, got: seq<B>)
    requires |got| <= MAX_REPLIES && |pages| <= left
    requires forall page, it | page in pages && it in page :: Value(it).Some?
    ensures Walk(pages, left, got) == Take(got + Everything(pages), MAX_REPLIES)
    decreases left
  {
    if pages == [] {
      assert got + Everything(pages) == got;
    } else if |got| < MAX_REPLIES {
      var kept := Take(pages[0], MAX_REPLIES - |got|);
      assert forall p | p in pages[1..] :: p in pages;
      KeptRenders(pages[0], MAX_REPLIES - |got|);
      WalkIsFirstFifty(pages[1..], left - 1, got + Sequential(kept));
      OnePageMore(pages[0], Everything(pages[1..]), got);
    } else {
      assert Take(got + Everything(pages), MAX_REPLIES) == got;
    }
  }

  /** Cutting a page to the room left does not change the first fifty. */
  lemma OnePageMore<B>(page: seq<Item<B>>, rest: seq<B>, got: seq<B>)
    requires |got| < MAX_REPLIES && forall it | it in page :: Value(it).Some?
    ensures Take(got + Sequential(Take(page, MAX_REPLIES - |got|)) + rest, MAX_REPLIES) ==
            Take(got + (Sequential(page) + rest), MAX_REPLIES)
  {
    var room := MAX_REPLIES - |got|;
    if |page| <= room {
      assert got + Sequential(page) + rest == got + (Sequential(page) + rest);
    } else {
      SequentialConcat(page[..room], page[room..]);
      assert page[..room] + page[room..] == page;
      assert forall it | it in page[..room] :: it in page;
      SequentialSize(page[..room]);
      var a := got + Sequential(page[..room]);
      assert got + (Sequential(page) + rest) == a + (Sequential(page[room..]) + rest);
    }
  }

  lemma {:induction false} SubsequenceConcat<B(!new)>(a: seq<B>, b: seq<B>, c: seq<B>, d: seq<B>)
    requires Subsequence(a, b) && Subsequence(c, d)
    ensures Subsequence(a + c, b + d)
    decreases |d|
  {
    if d == [] {
      assert a + c == a && b + d == b;
    } else {
      assert (b + d)[..|b + d| - 1] == b + d[..|d| - 1];
      if c != [] && c[|c| - 1] == d[|d| - 1] && Subsequence(c[..|c| - 1], d[..|d| - 1]) {
        SubsequenceConcat(a, b, c[..|c| - 1], d[..|d| - 1]);
        assert (a + c)[..|a + c| - 1] == a + c[..|c| - 1];
      } else {
        SubsequenceConcat(a, b, c, d[..|d| - 1]);
      }
    }
  }

  lemma {:induction false} SubsequenceSelf<B(!new)>(a: seq<B>)
    ensures Subsequence(a, a)
  {
    if a != [] {
      SubsequenceSelf(a[..|a| - 1]);
    }
  }

  lemma FirstPageFirst<B>(pages: seq<seq<Item<B>>>, seen: seq<B>)
    requires pages != []
    ensures seen + Sequential(pages[0]) + Everything(pages[1..]) == seen + Everything(pages)
  {
  }

  lemma KeptIsPart<B(!new)>(page: seq<Item<B>>, room: nat)
    ensures Subsequence(Sequential(Take(page, room)), Sequential(page))
  {
    var kept := Take(page, room);
    var rest := page[|kept|..];
    SequentialConcat(kept, rest);
    assert kept + rest == page;
    SubsequenceSelf(Sequential(kept));
    SubsequenceConcat(Sequential(kept), Sequential(kept), [], Sequential(rest));
    assert Sequential(kept) + [] == Sequential(kept);
  }

  /** In general the walk returns some of the pages' replies in page order: a page cut short may lose later ones. */
  lemma {:induction false} WalkInPageOrder<B(!new)>(pages: seq<seq<Item<B>>>, left: nat, got: seq<B>, seen: seq<B>)
    requires Subsequence(got, seen)
    ensures Subsequence(Walk(pages, left, got), seen + Everything(pages))
    decreases left
  {
    if left == 0 || |got| >= MAX_REPLIES || pages == [] {
      SubsequenceConcat(got, seen, [], Everything(pages));
      assert got + [] == got;
    } else {
      var page, room := pages[0], MAX_REPLIES - |got|;
      var kept := Take(page, room);
      KeptIsPart(page, room);
      SubsequenceConcat(got, seen, Sequential(kept), Sequential(page));
      WalkInPageOrder(pages[1..], left - 1, got + Sequential(kept), seen + Sequential(page));
      FirstPageFirst(pages, seen);
    }
  }
}
