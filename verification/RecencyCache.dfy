/**
 The bounded expirable LRU the gateway keeps its in-memory sets in: entries in
 recency order, the oldest dropped beyond the capacity, and any entry older than
 its time to live free to vanish at any moment.
 */
module RecencyCache {
  import opened Basics

  type Key = string

  /** at is the time of the key's last Add. */
  datatype Entry = Entry(key: Key, at: nat)

  type Cache = seq<Entry> // most recently used first

  predicate Has(c: Cache, k: Key) {
    exists e :: e in c && e.key == k
  }

  ghost predicate DistinctKeys(c: Cache) {
    forall i, j | 0 <= i < j < |c| :: c[i].key != c[j].key
  }

  function DropKey(c: Cache, k: Key): Cache {
    if c == [] then []
    else if c[0].key == k then DropKey(c[1..], k)
    else [c[0]] + DropKey(c[1..], k)
  }

  /** Add: to the front with a fresh lifetime, evicting the last entry beyond cap. */
  function Touch(c: Cache, k: Key, now: nat, cap: nat): Cache {
    Take([Entry(k, now)] + DropKey(c, k), cap)
  }

  function Expire(c: Cache, gone: set<Key>): Cache {
    if c == [] then []
    else if c[0].key in gone then Expire(c[1..], gone)
    else [c[0]] + Expire(c[1..], gone)
  }

  /** Only entries whose lifetime is over have gone. */
  ghost predicate OnlyExpired(c: Cache, gone: set<Key>, now: nat, ttl: nat) {
    forall e | e in c && e.key in gone :: e.at + ttl <= now
  }

  /** x is cached, added no earlier than since, and everything more recent than it is in s. */
  ghost predicate Guarded(c: Cache, x: Key, s: set<Key>, since: nat) {
    c != [] &&
    if c[0].key == x then c[0].at >= since
    else c[0].key in s && Guarded(c[1..], x, s, since)
  }

  lemma {:induction false} GuardedHas(c: Cache, x: Key, s: set<Key>, since: nat)
    requires Guarded(c, x, s, since)
    ensures Has(c, x)
  {
    if c[0].key != x {
      GuardedHas(c[1..], x, s, since);
      var e :| e in c[1..] && e.key == x;
      assert e in c;
    } else {
      assert c[0] in c;
    }
  }

  lemma {:induction false} GuardedWiden(c: Cache, x: Key, s: set<Key>, t: set<Key>, since: nat)
    requires Guarded(c, x, s, since) && s <= t
    ensures Guarded(c, x, t, since)
  {
    if c[0].key != x {
      GuardedWiden(c[1..], x, s, t, since);
    }
  }

  lemma {:induction false} DropKeyIs(c: Cache, k: Key)
    ensures forall e :: e in DropKey(c, k) <==> e in c && e.key != k
    ensures DistinctKeys(c) ==> DistinctKeys(DropKey(c, k))
  {
    if c != [] {
      DropKeyIs(c[1..], k);
      assert c == [c[0]] + c[1..];
      if DistinctKeys(c) && c[0].key != k {
        forall j | 0 <= j < |DropKey(c[1..], k)|
          ensures DropKey(c[1..], k)[j].key != c[0].key
        {
          assert DropKey(c[1..], k)[j] in c[1..];
        }
      }
    }
  }

  lemma {:induction false} ExpireIs(c: Cache, gone: set<Key>)
    ensures forall e :: e in Expire(c, gone) <==> e in c && e.key !in gone
    ensures DistinctKeys(c) ==> DistinctKeys(Expire(c, gone))
  {
    if c != [] {
      ExpireIs(c[1..], gone);
      assert c == [c[0]] + c[1..];
      if DistinctKeys(c) && c[0].key !in gone {
        forall j | 0 <= j < |Expire(c[1..], gone)|
          ensures Expire(c[1..], gone)[j].key != c[0].key
        {
          assert Expire(c[1..], gone)[j] in c[1..];
        }
      }
    }
  }

  lemma TouchDistinct(c: Cache, k: Key, now: nat, cap: nat)
    requires DistinctKeys(c)
    ensures DistinctKeys(Touch(c, k, now, cap)) && |Touch(c, k, now, cap)| <= cap
  {
    DropKeyIs(c, k);
    var d := DropKey(c, k);
    assert forall j | 0 <= j < |d| :: d[j] in d && d[j].key != k;
  }

  lemma {:induction false} DropKeyGuards(c: Cache, k: Key, x: Key, s: set<Key>, since: nat)
    requires Guarded(c, x, s, since) && k != x
    ensures Guarded(DropKey(c, k), x, s, since)
  {
    if c[0].key != x {
      DropKeyGuards(c[1..], k, x, s, since);
    }
  }

  /** An entry with fewer than n distinct keys ahead of it survives a cut to n. */
  lemma {:induction false} TakeGuards(c: Cache, n: nat, x: Key, s: set<Key>, since: nat)
    requires Guarded(c, x, s, since) && DistinctKeys(c) && x in s && |s| <= n
    ensures Guarded(Take(c, n), x, s, since)
    decreases |c|
  {
    assert |s - {x}| == |s| - 1;
    if c[0].key == x {
      assert Take(c, n)[0] == c[0];
    } else {
      var head := c[0].key;
      GuardedNarrow(c[1..], x, s, head, since);
      assert |s - {head}| == |s| - 1;
      TakeGuards(c[1..], n - 1, x, s - {head}, since);
      GuardedWiden(Take(c[1..], n - 1), x, s - {head}, s, since);
      assert Take(c, n) == [c[0]] + Take(c[1..], n - 1);
    }
  }

  lemma {:induction false} GuardedNarrow(c: Cache, x: Key, s: set<Key>, k: Key, since: nat)
    requires Guarded(c, x, s, since) && k != x && forall e | e in c :: e.key != k
    ensures Guarded(c, x, s - {k}, since)
  {
    if c[0].key != x {
      assert c[0] in c;
      GuardedNarrow(c[1..], x, s, k, since);
    }
  }

  /** Touching a key of s never evicts a guarded entry, when s is no larger than the cache. */
  lemma TouchGuards(c: Cache, k: Key, now: nat, cap: nat, x: Key, s: set<Key>, since: nat)
    requires DistinctKeys(c) && k in s && x in s && |s| <= cap && since <= now
    requires k == x || Guarded(c, x, s, since)
    ensures Guarded(Touch(c, k, now, cap), x, s, since)
  {
    var d := DropKey(c, k);
    var front := [Entry(k, now)] + d;
    DropKeyIs(c, k);
    assert forall j | 0 <= j < |d| :: d[j] in d;
    assert front[1..] == d;
    if k != x {
      DropKeyGuards(c, k, x, s, since);
    }
    TakeGuards(front, cap, x, s, since);
  }

  /** Expiry spares an entry that is still within its lifetime. */
  lemma {:induction false} ExpireGuards(c: Cache, gone: set<Key>, now: nat, ttl: nat, x: Key, s: set<Key>, since: nat)
    requires Guarded(c, x, s, since) && OnlyExpired(c, gone, now, ttl) && now < since + ttl
    ensures Guarded(Expire(c, gone), x, s, since)
  {
    assert c[0] in c;
    if c[0].key != x {
      ExpireGuards(c[1..], gone, now, ttl, x, s, since);
    }
  }
}
