/** Paging a remote directory of accounts: 64-bit offsets in text cursors, and one page of candidates per request. */
module Directory {
  import opened Basics
  import opened Text
  import FollowerIds

  const MAX_UINT64: nat := 0xFFFF_FFFF_FFFF_FFFF
  const DEFAULT_LIMIT: nat := 40
  const DIRECTORY_LIMIT: nat := 80
  const PREFIX := "directory:"
  const END := "end"

  // ---- decimal numbers ----

  function FormatUint(n: nat): string {
    if n < 10 then [('0' as int + n) as char] else FormatUint(n / 10) + [('0' as int + n % 10) as char]
  }

  function DecimalValue(s: string): Option<nat> {
    if s == "" then Some(0)
    else
      var c := s[|s| - 1];
      match DecimalValue(s[..|s| - 1])
      case None => None
      case Some(v) => if '0' <= c <= '9' then Some(v * 10 + (c as int - '0' as int)) else None
  }

  /** None for an empty text, for anything but digits, and for what 64 bits do not hold. */
  function ParseUint(s: string): Option<nat> {
    var v := DecimalValue(s);
    if s == "" || v.None? || v.value > MAX_UINT64 then None else v
  }

  lemma {:induction false} DecimalRoundTrip(n: nat)
    ensures DecimalValue(FormatUint(n)) == Some(n) && FormatUint(n) != ""
  {
    var s := FormatUint(n);
    if n < 10 {
      assert s[..0] == "";
    } else {
      DecimalRoundTrip(n / 10);
      assert s[..|s| - 1] == FormatUint(n / 10);
    }
  }

  // ---- requests ----

  datatype Request = Request(limit: Option<nat>, cursor: Option<string>)

  function Limit(req: Request): (l: nat)
    ensures 0 < l <= DIRECTORY_LIMIT
  {
    if req.limit.None? || req.limit.value == 0 then DEFAULT_LIMIT
    else if req.limit.value < DIRECTORY_LIMIT then req.limit.value
    else DIRECTORY_LIMIT
  }

  /** Where the requested page starts; None for an invalid cursor. */
  function Offset(req: Request): Option<nat> {
    if req.cursor.None? || req.cursor.value == "" then Some(0)
    else
      match CutPrefix(req.cursor.value, PREFIX)
      case None => None
      case Some(raw) =>
        var n := ParseUint(raw);
        if n.None? || n.value > MAX_UINT64 - Limit(req) then None else n
  }

  function NextCursor(req: Request, offset: nat, received: nat): string {
    if received >= Limit(req) then PREFIX + FormatUint(offset + Limit(req)) else END
  }

  /** An account of the directory as its host names it. */
  datatype Account = Account(acct: string, suspended: bool, moved: bool)

  function AcctHandle(host: string, acct: string): string {
    if acct == "" || '@' in acct then acct else acct + "@" + host
  }

  predicate IsUlid(name: string) {
    && |name| == 26 && '0' <= name[0] <= '7'
    && forall i | 0 <= i < |name| :: name[i] in "0123456789ABCDEFGHJKMNPQRSTVWXYZabcdefghjkmnpqrstvwxyz"
  }

  /** A Fediverse account that can be suggested: a live one, elsewhere, that is not a Warpnet id. */
  predicate Suggestible(self: string, host: string, a: Account) {
    var p := Cut(AcctHandle(host, a.acct), "@");
    && !a.suspended && !a.moved
    && p.found && p.before != "" && p.after != "" && '@' !in p.after
    && !IsUlid(p.before) && !FollowerIds.IsSelfHost(self, p.after)
  }

  /** The handles of the suggestible accounts, each at its first place. */
  function Suggested(self: string, host: string, accounts: seq<Account>): seq<string> {
    if accounts == [] then []
    else
      var before, a := Suggested(self, host, accounts[..|accounts| - 1]), accounts[|accounts| - 1];
      if Suggestible(self, host, a) && AcctHandle(host, a.acct) !in before then before + [AcctHandle(host, a.acct)]
      else before
  }

  datatype Response = Response(users: seq<string>, cursor: string)

  datatype Result = Ok(response: Response) | InvalidCursor | FetchFailed

  /** What a request for a page is answered with when the directory gives the accounts. */
  function Answered(self: string, host: string, req: Request, offset: nat, accounts: seq<Account>): Response {
    Response(Suggested(self, host, Take(accounts, Limit(req))), NextCursor(req, offset, |accounts|))
  }

  class Recommendations {
    const self: string
    const host: string
    var cache: map<(nat, nat), Response> // by limit and offset

    constructor (self: string, host: string)
      ensures this.self == self && this.host == host && cache == map[]
    {
      this.self, this.host := self, host;
      cache := map[];
    }

    /** fetched: what the directory answers if it is asked, None when asking fails. */
    method WhoToFollow(req: Request, fetched: Option<seq<Account>>) returns (r: Result)
      modifies this`cache
      ensures host == "" || req.cursor == Some(END) ==> r == Ok(Response([], END)) && cache == old(cache)
      ensures host != "" && req.cursor != Some(END) ==>
                match Offset(req)
                case None => r == InvalidCursor && cache == old(cache)
                case Some(offset) =>
                  var key := (Limit(req), offset);
                  if key in old(cache) then r == Ok(old(cache)[key]) && cache == old(cache)
                  else
                    match fetched
                    case None => r == FetchFailed && cache == old(cache)
                    case Some(accounts) =>
                      r == Ok(Answered(self, host, req, offset, accounts)) && cache == old(cache)[key := r.response]
    {
      if host == "" || req.cursor == Some(END) {
        return Ok(Response([], END));
      }
      var limit, start := Limit(req), Offset(req);
      if start.None? {
        return InvalidCursor;
      }
      var key := (limit, start.value);
      if key in cache {
        return Ok(cache[key]);
      }
      if fetched.None? {
        return FetchFailed;
      }
      var users := Candidates(Take(fetched.value, limit));
      var response := Response(users, NextCursor(req, start.value, |fetched.value|));
      cache := cache[key := response];
      r := Ok(response);
    }

    method Candidates(accounts: seq<Account>) returns (users: seq<string>)
      ensures users == Suggested(self, host, accounts)
    {
      users := [];
      var seen: set<string> := {};
      for k := 0 to |accounts|
        invariant users == Suggested(self, host, accounts[..k])
        invariant seen == SetOf(users)
      {
        assert accounts[..k + 1][..k] == accounts[..k];
        var handle := AcctHandle(host, accounts[k].acct);
        if handle !in seen && Suggestible(self, host, accounts[k]) {
          seen := seen + {handle};
          users := users + [handle];
        }
      }
      assert accounts[..|accounts|] == accounts;
    }
  }

  /** Suggestions are without repetition, and exactly the suggestible accounts given. */
  lemma {:induction false} SuggestedAre(self: string, host: string, accounts: seq<Account>)
    ensures Distinct(Suggested(self, host, accounts))
    ensures forall h :: h in Suggested(self, host, accounts) <==>
                        exists a | a in accounts :: Suggestible(self, host, a) && AcctHandle(host, a.acct) == h
  {
    if accounts != [] {
      var front, last := accounts[..|accounts| - 1], accounts[|accounts| - 1];
      SuggestedAre(self, host, front);
      assert accounts == front + [last];
      assert last in accounts;
    }
  }

  /** Who is suggested, in terms of what the directory says: a live account elsewhere, that is no Warpnet id. */
  lemma SuggestibleExactly(self: string, host: string, name: string, instance: string, a: Account)
    requires '@' !in name
    requires a.acct == name + "@" + instance || (a.acct == name && name != "" && instance == host)
    ensures AcctHandle(host, a.acct) == name + "@" + instance
    ensures Suggestible(self, host, a) <==>
            && !a.suspended && !a.moved && name != "" && instance != "" && '@' !in instance
            && !(|name| == 26 && IsUlid(name)) && (self == "" || !FollowerIds.IsSelfHost(self, instance))
  {
    assert a.acct == name + "@" + instance ==> a.acct[|name|] == '@';
    CutAtChar(name, '@', instance);
  }

  lemma NamelessIsSkipped(self: string, host: string, a: Account)
    requires a.acct == ""
    ensures !Suggestible(self, host, a)
  {
    AbsentChar("", '@');
  }

  /** How many accounts a page asks for: 40 unless told, and 80 at most. */
  lemma LimitExactly(cursor: Option<string>, n: nat)
    ensures Limit(Request(None, cursor)) == Limit(Request(Some(0), cursor)) == 40
    ensures n > 0 ==> Limit(Request(Some(n), cursor)) == if n <= 80 then n else 80
  {
  }

  /** An answer holds no more than the page asked for, taken from the first accounts the directory gave, in order. */
  lemma AnsweredIsAPage(self: string, host: string, req: Request, offset: nat, accounts: seq<Account>, h: string)
    ensures |Answered(self, host, req, offset, accounts).users| <= Limit(req)
    ensures h in Answered(self, host, req, offset, accounts).users <==>
            exists i :: 0 <= i < |accounts| && i < Limit(req) && Suggestible(self, host, accounts[i]) &&
                        AcctHandle(host, accounts[i].acct) == h
  {
    var page := Take(accounts, Limit(req));
    SuggestedAre(self, host, page);
    SuggestedFits(self, host, page);
    if a :| a in page && Suggestible(self, host, a) && AcctHandle(host, a.acct) == h {
      var i :| 0 <= i < |page| && page[i] == a;
      assert accounts[i] == a;
    }
    if i :| 0 <= i < |accounts| && i < Limit(req) && Suggestible(self, host, accounts[i]) &&
            AcctHandle(host, accounts[i].acct) == h {
      assert page[i] == accounts[i];
    }
  }

  lemma {:induction false} SuggestedFits(self: string, host: string, accounts: seq<Account>)
    ensures |Suggested(self, host, accounts)| <= |accounts|
  {
    if accounts != [] {
      SuggestedFits(self, host, accounts[..|accounts| - 1]);
    }
  }

  // ---- cursors ----

  function Zeros(z: nat): string {
    seq(z, _ => '0')
  }

  lemma ZerosNext(z: nat)
    ensures Zeros(z + 1) == Zeros(z) + "0"
  {
  }

  /** A text is read as a number exactly when it is that number's decimal digits, perhaps after zeros. */
  lemma {:induction false} ReadAsNumber(s: string, n: nat) returns (z: nat)
    requires s != "" && DecimalValue(s) == Some(n)
    ensures s == Zeros(z) + FormatUint(n)
  {
    var front, c := s[..|s| - 1], s[|s| - 1];
    assert s == front + [c];
    if front == "" {
      z := 0;
      assert DecimalValue(front) == Some(0);
    } else {
      var m := DecimalValue(front).value;
      z := ReadAsNumber(front, m);
      if m == 0 {
        ZerosNext(z);
        z := z + 1;
      }
    }
  }

  lemma {:induction false} NumberAfterZeros(z: nat, n: nat)
    ensures DecimalValue(Zeros(z) + FormatUint(n)) == Some(n)
  {
    var s := Zeros(z) + FormatUint(n);
    var front := s[..|s| - 1];
    if n >= 10 {
      NumberAfterZeros(z, n / 10);
      assert front == Zeros(z) + FormatUint(n / 10);
    } else if z > 0 {
      NumberAfterZeros(z - 1, 0);
      ZerosNext(z - 1);
      assert front == Zeros(z - 1) + FormatUint(0);
    } else {
      assert front == "";
    }
  }

  /** A page's start: 0 without a cursor, else the number its cursor spells, if the page then fits 64 bits. */
  lemma OffsetExactly(req: Request, n: nat)
    ensures Offset(req) == Some(n) <==>
            if req.cursor.None? || req.cursor.value == "" then n == 0
            else n + Limit(req) <= 0xFFFF_FFFF_FFFF_FFFF &&
                 exists z :: z >= 0 && req.cursor.value == "directory:" + (Zeros(z) + FormatUint(n))
  {
    if req.cursor.Some? && req.cursor.value != "" {
      var cursor := req.cursor.value;
      if Offset(req) == Some(n) {
        var z := ReadAsNumber(cursor[|PREFIX|..], n);
        assert cursor == PREFIX + (Zeros(z) + FormatUint(n));
      }
      if n + Limit(req) <= MAX_UINT64 {
        forall z | z >= 0 && cursor == PREFIX + (Zeros(z) + FormatUint(n))
          ensures Offset(req) == Some(n)
        {
          NumberAfterZeros(z, n);
          DecimalRoundTrip(n);
          assert cursor[|PREFIX|..] == Zeros(z) + FormatUint(n);
        }
      }
    }
  }

  // ---- paging ----

  /** An accepted page ends within 64 bits; the cursor it hands out is read back as the number after it, further on. */
  lemma CursorRoundTrip(req: Request, next: Request, received: nat)
    requires Offset(req).Some?
    requires next.cursor == Some(NextCursor(req, Offset(req).value, received))
    ensures var end := Offset(req).value + Limit(req);
            && Offset(req).value < end <= MAX_UINT64
            && (received < Limit(req) <==> next.cursor == Some(END))
            && (received >= Limit(req) && end <= MAX_UINT64 - Limit(next) ==> Offset(next) == Some(end))
            && (received >= Limit(req) && end > MAX_UINT64 - Limit(next) ==> Offset(next) == None)
  {
    var end := Offset(req).value + Limit(req);
    DecimalRoundTrip(end);
    var cursor := PREFIX + FormatUint(end);
    assert cursor[|PREFIX|..] == FormatUint(end);
    assert cursor[0] == 'd' && cursor != END;
  }

  /** The accounts of a fixed directory on the requested page. */
  function Slice<T>(dir: seq<T>, offset: nat, limit: nat): seq<T> {
    if offset >= |dir| then [] else Take(dir[offset..], limit)
  }

  /** The state of paging through a fixed directory from its start, one request with each of the limits in turn. */
  datatype Walk<T> = Walk(cursor: string, covered: seq<T>, failed: bool)

  function Paged<T>(dir: seq<T>, limits: seq<Option<nat>>): Walk<T> {
    if limits == [] then Walk("", [], false)
    else
      var before := Paged(dir, limits[..|limits| - 1]);
      var req := Request(limits[|limits| - 1], Some(before.cursor));
      if before.failed || before.cursor == END then before
      else
        match Offset(req)
        case None => before.(failed := true)
        case Some(offset) =>
          var page := Slice(dir, offset, Limit(req));
          Walk(NextCursor(req, offset, |page|), before.covered + page, false)
  }

  /** Where a walk stands: at the end with everything covered, or after a prefix that is exactly what was covered. */
  ghost predicate AtPrefix<T>(w: Walk<T>, dir: seq<T>, n: nat) {
    && n <= |dir| && w.covered == dir[..n] && !w.failed
    && w.cursor == if n == 0 then "" else PREFIX + FormatUint(n)
  }

  lemma NextPage<T>(w: Walk<T>, dir: seq<T>, n: nat, req: Request)
    requires |dir| <= MAX_UINT64 - DIRECTORY_LIMIT
    requires AtPrefix(w, dir, n) && req.cursor == Some(w.cursor)
    ensures w.cursor != END && Offset(req) == Some(n)
    ensures var page := Slice(dir, n, Limit(req));
            var next := Walk(NextCursor(req, n, |page|), w.covered + page, false);
            if n + Limit(req) <= |dir| then AtPrefix(next, dir, n + Limit(req))
            else next.cursor == END && next.covered == dir
  {
    DecimalRoundTrip(n);
    var cursor := PREFIX + FormatUint(n);
    assert cursor[|PREFIX|..] == FormatUint(n) && cursor[0] == 'd';
    var page := Slice(dir, n, Limit(req));
    if n + Limit(req) <= |dir| {
      assert dir[..n] + page == dir[..n + Limit(req)];
    } else {
      assert dir[..n] + page == dir;
    }
  }

  /**
   Whatever limits are asked for from page to page, the pages reached from the start tile the
   directory in order, each account once, and paging ends, after at most one page per account and one more.
   */
  lemma {:induction false} PagesTile<T>(dir: seq<T>, limits: seq<Option<nat>>)
    requires |dir| <= MAX_UINT64 - DIRECTORY_LIMIT
    ensures var w := Paged(dir, limits);
            || (w.cursor == END && w.covered == dir && !w.failed)
            || (|w.covered| >= |limits| && AtPrefix(w, dir, |w.covered|))
    ensures |limits| > |dir| ==> Paged(dir, limits).cursor == END && Paged(dir, limits).covered == dir
  {
    if limits != [] {
      var before := Paged(dir, limits[..|limits| - 1]);
      PagesTile(dir, limits[..|limits| - 1]);
      if before.cursor != END {
        NextPage(before, dir, |before.covered|, Request(limits[|limits| - 1], Some(before.cursor)));
      }
    }
  }
}
