/** Status ids: printed by the Reply, Delete and serving paths, and read back by two parsers and the router. */
module StatusRefs {
  import opened Basics
  import opened Text
  import opened Percent

  const HTTPS := "https://"
  const USERS := "/users/"
  const STATUSES := "/statuses/"
  const PARENT := "parent"

  function BaseUrl(host: string): string {
    HTTPS + host
  }

  function StatusPath(user: string, id: string): string {
    USERS + user + STATUSES + id
  }

  function StatusUrl(host: string, user: string, id: string): string {
    BaseUrl(host) + StatusPath(user, id)
  }

  function ReplyUrl(host: string, user: string, id: string, parent: Bytes): string {
    StatusUrl(host, user, id) + "?" + EncodePair(PARENT, parent)
  }

  // ---- the three printers ----

  datatype Reply = Reply(id: string, userId: string, rootId: Bytes, parentId: Option<Bytes>)

  datatype Deletion = Deletion(tweetId: string, userId: string, rootId: Bytes, parentId: Bytes)

  /** What a reply answers: its parent, or the thread's root without one. */
  function ParentOf(r: Reply): Bytes {
    if r.parentId.Some? && r.parentId.value != "" then r.parentId.value else r.rootId
  }

  function DeletedParent(d: Deletion): Bytes {
    if d.parentId != "" then d.parentId else d.rootId
  }

  /** The note id a reply federates under; token stands for the random id of a reply that has none. */
  function RepliedAs(host: string, r: Reply, token: string): string {
    ReplyUrl(host, r.userId, if r.id == "" then token else r.id, ParentOf(r))
  }

  /** The id of the tombstone that deletes a reply. */
  function DeletedAs(host: string, d: Deletion): string {
    ReplyUrl(host, d.userId, d.tweetId, DeletedParent(d))
  }

  /** The id a dereferenced note is served under, given the query of the request and the id the node answered with. */
  function ServedAs(host: string, user: string, id: string, query: Bytes): string {
    match Get(query, PARENT)
    case Some(parent) =>
      if parent != "" then ReplyUrl(host, user, id, parent) else StatusUrl(host, user, id)
    case None => StatusUrl(host, user, id)
  }

  // ---- the readers ----

  /** Owner and tweet a request for a decoded path is served for; None where it is not for a status. */
  function Routed(path: string): Option<(string, string)> {
    match CutPrefix(path, USERS) case None => None case Some(rest) => RoutedBelow(rest)
  }

  function RoutedBelow(rest: string): Option<(string, string)> {
    var user := Cut(rest, "/");
    var collection := Cut(user.after, "/");
    var id := Cut(collection.after, "/");
    if collection.before != "statuses" || id.before == "" || (id.found && UpToSlash(id.after) == "replies") then None
    else Some((user.before, id.before))
  }

  /** The part of a URL before its fragment and query. */
  function Bare(url: string): string {
    Cut(Cut(url, "#").before, "?").before
  }

  /** What a request for a URL carries as its query. */
  function QueryOf(url: string): string {
    Cut(Cut(url, "#").before, "?").after
  }

  function UpToSlash(s: string): string {
    Cut(s, "/").before
  }

  /** {user}/statuses/{id}, with anything after a slash dropped from the id. */
  function SplitStatus(rest: string): Option<(string, string)> {
    var p := Cut(rest, STATUSES);
    if !p.found || p.before == "" || p.after == "" then None else Some((p.before, UpToSlash(p.after)))
  }

  /** Owner and tweet of one of our status URLs, by cutting the text. */
  function ParseLocalStatus(host: string, url: string): Option<(string, string)> {
    match CutPrefix(Bare(url), BaseUrl(host) + USERS)
    case None => None
    case Some(rest) => SplitStatus(rest)
  }

  // ---- a URL parser, as far as hosts and paths go ----

  function Lower(c: char): char {
    if 'A' <= c <= 'Z' then (c as int + 32) as char else c
  }

  predicate EqualFold(a: string, b: string) {
    |a| == |b| && forall i | 0 <= i < |a| :: Lower(a[i]) == Lower(b[i])
  }

  predicate IsScheme(s: string) {
    && s != ""
    && ('a' <= Lower(s[0]) <= 'z')
    && forall i | 0 <= i < |s| :: 'a' <= Lower(s[i]) <= 'z' || '0' <= s[i] <= '9' || s[i] in "+-."
  }

  function Host(authority: string): string {
    match LastIndex(authority, "@") case Some(i) => authority[i + 1..] case None => authority
  }

  predicate AllDigits(s: string) {
    forall i | 0 <= i < |s| :: '0' <= s[i] <= '9'
  }

  /** A host without its port; None when the port is not a number. */
  function Hostname(host: string): Option<string> {
    match LastIndex(host, ":")
    case None => Some(host)
    case Some(i) => if AllDigits(host[i + 1..]) then Some(host[..i]) else None
  }

  /** host is the authority without credentials, hostname also without the port; the path is decoded. */
  datatype Url = Url(host: string, hostname: string, path: string)

  function AfterScheme(s: string): string {
    var scheme := Cut(s, ":");
    if scheme.found && IsScheme(scheme.before) then scheme.after else s
  }

  /** The host and the decoded path of what follows the scheme; None without an authority. */
  function ParseHierarchy(s: string): Option<Url> {
    match CutPrefix(s, "//")
    case None => None
    case Some(rest) =>
      var authority := UpToSlash(rest);
      match (Hostname(Host(authority)), Unescape(rest[|authority|..], false))
      case (Some(hostname), Some(path)) =>
        if Host(authority) == "" then None else Some(Url(Host(authority), hostname, path))
      case _ => None
  }

  /** None where parsing fails or the URL has no authority. */
  function ParseUrl(raw: string): Option<Url> {
    var p := Cut(raw, "#");
    if HasControl(p.before) || Unescape(p.after, false).None? then None
    else ParseHierarchy(Cut(AfterScheme(p.before), "?").before)
  }

  function OwnerAndTweet(path: string): Option<(string, string)> {
    match CutPrefix(path, USERS) case None => None case Some(rest) => SplitStatus(rest)
  }

  /** Owner and tweet of one of our status URLs, by parsing the URL. */
  function OwnStatusRef(host: string, raw: string): Option<(string, string)> {
    match ParseUrl(raw)
    case None => None
    case Some(u) =>
      if host == "" || !EqualFold(u.hostname, host) then None else OwnerAndTweet(u.path)
  }

  // ---- reading back what was printed ----

  /** A host name a status URL can be read back from: no port, no credentials. */
  predicate PlainHost(host: string) {
    host != "" && forall i | 0 <= i < |host| :: Unreserved(host[i])
  }

  /** A user or tweet id that leaves the URL's structure alone. */
  predicate PlainId(id: string) {
    id != "" && '/' !in id && '?' !in id && '#' !in id && !HasControl(id)
  }

  /** What may follow the path of a printed URL. */
  predicate PlainQuery(query: string) {
    '#' !in query && !HasControl(query)
  }

  lemma SplitPrinted(user: string, id: string)
    requires PlainId(user) && PlainId(id)
    ensures SplitStatus(user + STATUSES + id) == Some((user, id))
  {
    forall j | 0 <= j < |user|
      ensures !At(user + STATUSES + id, j, STATUSES)
    {
      assert (user + STATUSES + id)[j..j + |STATUSES|][0] == user[j];
      assert user[j] in user && STATUSES[0] == '/';
    }
    CutJoined(user, STATUSES, id);
    AbsentChar(id, '/');
  }

  lemma BareOfPrinted(front: string, query: string)
    requires '#' !in front && '?' !in front && '#' !in query
    ensures Bare(front + "?" + query) == front == Bare(front)
    ensures Cut(front + "?" + query, "#") == Parts(front + "?" + query, "", false)
    ensures Cut(front, "#") == Parts(front, "", false)
    ensures Cut(front + "?" + query, "?") == Parts(front, query, true)
    ensures Cut(front, "?") == Parts(front, "", false)
  {
    AbsentChar(front + "?" + query, '#');
    AbsentChar(front, '#');
    AbsentChar(front, '?');
    CutAtChar(front, '?', query);
  }

  lemma PrintedIsPlain(host: string, user: string, id: string)
    requires PlainHost(host) && PlainId(user) && PlainId(id)
    ensures var s := StatusUrl(host, user, id); '#' !in s && '?' !in s && !HasControl(s)
  {
    forall i | 0 <= i < |host|
      ensures host[i] != '#' && host[i] != '?' && !IsControl(host[i])
    {
    }
  }

  /** The text parser gives back the user and the id, with or without a query. */
  lemma LocalStatusRoundTrip(host: string, user: string, id: string, query: string)
    requires PlainHost(host) && PlainId(user) && PlainId(id) && PlainQuery(query)
    ensures ParseLocalStatus(host, StatusUrl(host, user, id)) == Some((user, id))
    ensures ParseLocalStatus(host, StatusUrl(host, user, id) + "?" + query) == Some((user, id))
  {
    var s, prefix := StatusUrl(host, user, id), BaseUrl(host) + USERS;
    PrintedIsPlain(host, user, id);
    BareOfPrinted(s, query);
    assert s == prefix + (user + STATUSES + id);
    assert s[|prefix|..] == user + STATUSES + id;
    SplitPrinted(user, id);
  }

  // ---- the URL parser on printed URLs ----

  lemma HostnameOfPlain(host: string)
    requires PlainHost(host)
    ensures Host(host) == host && Hostname(host) == Some(host)
  {
    AbsentChar(host, '@');
    AbsentChar(host, ':');
  }

  lemma AuthorityOfPrinted(host: string, path: string)
    requires PlainHost(host) && path != "" && path[0] == '/'
    ensures CutPrefix("//" + host + path, "//") == Some(host + path)
    ensures UpToSlash(host + path) == host && (host + path)[|host|..] == path
  {
    assert "//" + host + path == "//" + (host + path);
    assert ("//" + (host + path))[2..] == host + path;
    assert host + path == host + "/" + path[1..];
    CutAtChar(host, '/', path[1..]);
  }

  lemma HierarchyOfPrinted(host: string, path: string)
    requires PlainHost(host) && path != "" && path[0] == '/'
    ensures ParseHierarchy("//" + host + path) ==
            match Unescape(path, false) case Some(p) => Some(Url(host, host, p)) case None => None
  {
    AuthorityOfPrinted(host, path);
    HostnameOfPlain(host);
  }

  lemma AfterSchemeOfPrinted(rest: string)
    ensures AfterScheme(HTTPS + rest) == "//" + rest
  {
    assert HTTPS + rest == "https" + ":" + ("//" + rest);
    CutAtChar("https", ':', "//" + rest);
  }

  lemma FrontIsPlain(host: string, user: string, id: string)
    requires PlainHost(host) && PlainId(user) && PlainId(id)
    ensures '?' !in "//" + host + StatusPath(user, id)
    ensures StatusUrl(host, user, id) == "https:" + ("//" + host + StatusPath(user, id))
  {
    PrintedIsPlain(host, user, id);
    assert StatusUrl(host, user, id) == "https:" + ("//" + host + StatusPath(user, id));
  }

  /** Behind https: the part before the query is the front it was printed with. */
  lemma PartsOf(front: string, query: string)
    requires '?' !in front
    ensures Cut(AfterScheme("https:" + front), "?").before == front
    ensures Cut(AfterScheme("https:" + (front + "?" + query)), "?").before == front
  {
    SchemeOff(front);
    SchemeOff(front + "?" + query);
    AbsentChar(front, '?');
    CutAtChar(front, '?', query);
  }

  lemma SchemeOff(rest: string)
    ensures AfterScheme("https:" + rest) == rest
  {
    assert "https:" + rest == "https" + ":" + rest;
    CutAtChar("https", ':', rest);
  }

  lemma Reassociated(url: string, front: string, query: string)
    requires url == "https:" + front
    ensures url + "?" + query == "https:" + (front + "?" + query)
  {
  }

  lemma PrintedParts(host: string, user: string, id: string, query: string)
    requires PlainHost(host) && PlainId(user) && PlainId(id) && PlainQuery(query)
    ensures Cut(AfterScheme(StatusUrl(host, user, id) + "?" + query), "?").before == "//" + host + StatusPath(user, id)
  {
    FrontIsPlain(host, user, id);
    Reassociated(StatusUrl(host, user, id), "//" + host + StatusPath(user, id), query);
    PartsOf("//" + host + StatusPath(user, id), query);
  }

  lemma NoControl(a: string, b: string)
    requires !HasControl(a) && !HasControl(b)
    ensures !HasControl(a + "?" + b)
  {
  }

  lemma PlainParts(host: string, user: string, id: string)
    requires PlainHost(host) && PlainId(user) && PlainId(id)
    ensures Cut(AfterScheme(StatusUrl(host, user, id)), "?").before == "//" + host + StatusPath(user, id)
  {
    FrontIsPlain(host, user, id);
    PartsOf("//" + host + StatusPath(user, id), "");
  }

  /** What the URL parser makes of a printed URL: our host, and the path decoded. */
  function PrintedUrl(host: string, user: string, id: string): Option<Url> {
    match Unescape(StatusPath(user, id), false) case Some(p) => Some(Url(host, host, p)) case None => None
  }

  lemma ParsePrinted(host: string, user: string, id: string, query: string)
    requires PlainHost(host) && PlainId(user) && PlainId(id) && PlainQuery(query)
    ensures ParseUrl(StatusUrl(host, user, id) + "?" + query) == PrintedUrl(host, user, id)
  {
    var s := StatusUrl(host, user, id);
    PrintedIsPlain(host, user, id);
    AbsentChar(s + "?" + query, '#');
    NoControl(s, query);
    PrintedParts(host, user, id, query);
    HierarchyOfPrinted(host, StatusPath(user, id));
  }

  lemma ParsePlain(host: string, user: string, id: string)
    requires PlainHost(host) && PlainId(user) && PlainId(id)
    ensures ParseUrl(StatusUrl(host, user, id)) == PrintedUrl(host, user, id)
  {
    PrintedIsPlain(host, user, id);
    AbsentChar(StatusUrl(host, user, id), '#');
    PlainParts(host, user, id);
    HierarchyOfPrinted(host, StatusPath(user, id));
  }

  /**
   The URL parser gives back the user and the id, with or without a query, exactly when neither holds
   a percent sign, which it would decode; the text parser, in LocalStatusRoundTrip, always does.
   */
  lemma OwnStatusRoundTrip(host: string, user: string, id: string, query: string)
    requires PlainHost(host) && PlainId(user) && PlainId(id) && PlainQuery(query)
    ensures OwnStatusRef(host, StatusUrl(host, user, id)) == Some((user, id)) <==> '%' !in user && '%' !in id
    ensures OwnStatusRef(host, StatusUrl(host, user, id) + "?" + query) == Some((user, id)) <==>
            '%' !in user && '%' !in id
  {
    ParsePlain(host, user, id);
    ParsePrinted(host, user, id, query);
    DecodedPathRoundTrip(user, id);
  }

  lemma DecodedPathRoundTrip(user: string, id: string)
    requires PlainId(user) && PlainId(id)
    ensures var p := Unescape(StatusPath(user, id), false);
            p.Some? && OwnerAndTweet(p.value) == Some((user, id)) <==> '%' !in user && '%' !in id
  {
    var path := StatusPath(user, id);
    PathUnescape(path);
    PathAfterUsers(user, id);
    if '%' !in path {
      SplitPrinted(user, id);
    } else if Unescape(path, false).Some? && USERS <= Unescape(path, false).value {
      ShorterIsDifferent(Unescape(path, false).value, user, id);
    }
  }

  /** A path shorter than the printed one does not split into the same user and id. */
  lemma ShorterIsDifferent(path: string, user: string, id: string)
    requires |path| < |StatusPath(user, id)| && USERS <= path
    ensures SplitStatus(path[|USERS|..]) != Some((user, id))
  {
    var p := Cut(path[|USERS|..], STATUSES);
    if p.found {
      var after := Cut(p.after, "/");
      assert |path| == |USERS| + |p.before| + |STATUSES| + |p.after|;
      assert |after.before| <= |p.after|;
    }
  }

  lemma CutsOfPath(user: string, id: string)
    requires PlainId(user) && PlainId(id)
    ensures Cut(user + STATUSES + id, "/") == Parts(user, "statuses/" + id, true)
    ensures Cut("statuses/" + id, "/") == Parts("statuses", id, true)
    ensures Cut(id, "/") == Parts(id, "", false)
  {
    assert user + STATUSES + id == user + "/" + ("statuses/" + id);
    CutAtChar(user, '/', "statuses/" + id);
    assert "statuses/" + id == "statuses" + "/" + id;
    CutAtChar("statuses", '/', id);
    AbsentChar(id, '/');
  }

  /** The user and tweet a request for a path is served for, once the path is decoded. */
  function Served(path: string): Option<(string, string)> {
    match Unescape(path, false) case None => None case Some(p) => Routed(p)
  }

  /** A request for a printed URL is served for the user and id it was printed from exactly without percent signs. */
  lemma RoutedRoundTrip(user: string, id: string)
    requires PlainId(user) && PlainId(id)
    ensures Served(StatusPath(user, id)) == Some((user, id)) <==> '%' !in user && '%' !in id
  {
    var path := StatusPath(user, id);
    PathUnescape(path);
    PathAfterUsers(user, id);
    CutsOfPath(user, id);
    if '%' in path && Unescape(path, false).Some? && USERS <= Unescape(path, false).value {
      ShorterIsServedOtherwise(Unescape(path, false).value[|USERS|..], user, id);
    }
  }

  lemma ShorterIsServedOtherwise(rest: string, user: string, id: string)
    requires |rest| < |user + STATUSES + id|
    ensures RoutedBelow(rest) != Some((user, id))
  {
    var u := Cut(rest, "/");
    var c := Cut(u.after, "/");
    var i := Cut(c.after, "/");
    if u.found && c.found {
      assert |rest| == |u.before| + 1 + |c.before| + 1 + |c.after| && |i.before| <= |c.after|;
    }
  }

  lemma PathAfterUsers(user: string, id: string)
    ensures CutPrefix(StatusPath(user, id), USERS) == Some(user + STATUSES + id)
    ensures TrimPrefix(StatusPath(user, id), USERS) == user + STATUSES + id
    ensures '%' in StatusPath(user, id) <==> '%' in user || '%' in id
  {
    assert StatusPath(user, id) == USERS + (user + STATUSES + id);
    assert StatusPath(user, id)[|USERS|..] == user + STATUSES + id;
  }

  // ---- agreement of the printers, and dereferencing ----

  /** A printed reply id names one user, one tweet and one parent. */
  lemma ReplyIdInjective(host: string, user: string, id: string, parent: Bytes,
                         user': string, id': string, parent': Bytes)
    requires PlainHost(host) && PlainId(user) && PlainId(id) && PlainId(user') && PlainId(id')
    requires ReplyUrl(host, user, id, parent) == ReplyUrl(host, user', id', parent')
    ensures user == user' && id == id' && parent == parent'
  {
    ReplyIdRoundTrip(host, user, id, parent);
    ReplyIdRoundTrip(host, user', id', parent');
    ServedMatchesReply(host, user, id, parent);
    ServedMatchesReply(host, user', id', parent');
  }

  /**
   A tombstone names the very note a reply federated under exactly when it is for the same user, the
   same id (the random one, for a reply that had none) and the same parent.
   */
  lemma TombstoneMatchesReply(host: string, r: Reply, d: Deletion, token: string)
    requires PlainHost(host) && PlainId(token) && (r.id == "" || PlainId(r.id)) && PlainId(r.userId)
    requires PlainId(d.tweetId) && PlainId(d.userId)
    ensures DeletedAs(host, d) == RepliedAs(host, r, token) <==>
            d.userId == r.userId && d.tweetId == (if r.id == "" then token else r.id) && DeletedParent(d) == ParentOf(r)
  {
    if DeletedAs(host, d) == RepliedAs(host, r, token) {
      ReplyIdInjective(host, d.userId, d.tweetId, DeletedParent(d),
                       r.userId, if r.id == "" then token else r.id, ParentOf(r));
    }
  }

  /**
   Dereferencing a reply id: its query gives the parent exactly, and the note is served under the
   very id that was dereferenced unless the parent is empty, in which case it is not.
   */
  lemma ServedMatchesReply(host: string, user: string, id: string, parent: Bytes)
    requires PlainHost(host) && PlainId(user) && PlainId(id)
    ensures var url := ReplyUrl(host, user, id, parent);
            && QueryOf(url) == EncodePair(PARENT, parent)
            && Get(EncodePair(PARENT, parent), PARENT) == Some(parent)
            && IsBytes(QueryOf(url))
            && (ServedAs(host, user, id, QueryOf(url)) == url <==> parent != "")
  {
    var s, query := StatusUrl(host, user, id), EncodePair(PARENT, parent);
    PrintedIsPlain(host, user, id);
    PairIsPlain(parent);
    BareOfPrinted(s, query);
    GetEncoded(PARENT, parent);
    assert s + "?" + query != s by { assert |s + "?" + query| > |s|; }
  }

  /**
   Dereferencing a printed reply id end to end: its path is routed to the user and tweet it was
   printed from, its query gives the parent, and the note is then served under that very id.
   */
  lemma ReplyIsDereferenced(host: string, user: string, id: string, parent: Bytes)
    requires PlainHost(host) && PlainId(user) && PlainId(id) && parent != ""
    ensures var url := ReplyUrl(host, user, id, parent);
            && Bare(url) == BaseUrl(host) + StatusPath(user, id) && IsBytes(QueryOf(url))
            && Get(QueryOf(url), PARENT) == Some(parent)
            && (Served(StatusPath(user, id)) == Some((user, id)) <==> '%' !in user && '%' !in id)
            && ('%' !in user && '%' !in id ==>
                  var to := Served(StatusPath(user, id)).value; ServedAs(host, to.0, to.1, QueryOf(url)) == url)
  {
    RoutedRoundTrip(user, id);
    ServedMatchesReply(host, user, id, parent);
    GetEncoded(PARENT, parent);
    PrintedIsPlain(host, user, id);
    PairIsPlain(parent);
    BareOfPrinted(StatusUrl(host, user, id), EncodePair(PARENT, parent));
  }

  lemma PairIsPlain(parent: Bytes)
    ensures PlainQuery(EncodePair(PARENT, parent))
  {
    EscapeIsSafe(PARENT);
    EscapeIsSafe(parent);
  }

  /** Every reader on a printed reply id: the text parser, and the URL parser for ids without percent signs. */
  lemma ReplyIdRoundTrip(host: string, user: string, id: string, parent: Bytes)
    requires PlainHost(host) && PlainId(user) && PlainId(id)
    ensures ParseLocalStatus(host, ReplyUrl(host, user, id, parent)) == Some((user, id))
    ensures OwnStatusRef(host, ReplyUrl(host, user, id, parent)) == Some((user, id)) <==> '%' !in user && '%' !in id
  {
    PairIsPlain(parent);
    LocalStatusRoundTrip(host, user, id, EncodePair(PARENT, parent));
    OwnStatusRoundTrip(host, user, id, EncodePair(PARENT, parent));
  }

  // ---- actors ----

  function ActorId(host: string, user: string): string {
    BaseUrl(host) + USERS + user
  }

  /** The local user an actor URL names; "" where it names none. */
  function UserFromActorUrl(url: string): string {
    UpToSlash(Cut(url, USERS).after)
  }

  lemma Mismatch(s: string, j: nat, sub: string, d: nat)
    requires d < |sub| && j + |sub| <= |s| && s[j + d] != sub[d]
    ensures !At(s, j, sub)
  {
    assert s[j..j + |sub|][d] == s[j + d];
  }

  lemma UsersStandsOnce(host: string, user: string, j: nat)
    requires PlainHost(host) && host != "users" && j < |BaseUrl(host)|
    ensures !At(ActorId(host, user), j, USERS)
  {
    var s := ActorId(host, user);
    assert s == HTTPS + (host + (USERS + user));
    assert forall k | 0 <= k < |host| :: s[8 + k] == host[k] && host[k] != '/';
    if j < 6 {
      assert s[j] == HTTPS[j] != '/';
      Mismatch(s, j, USERS, 0);
    } else if j == 6 {
      assert s[7] == '/';
      Mismatch(s, 6, USERS, 1);
    } else if j >= 8 {
      assert s[j] == host[j - 8];
      Mismatch(s, j, USERS, 0);
    } else {
      UsersIsNoHost(s, host, USERS + user);
    }
  }

  lemma UsersIsNoHost(s: string, host: string, rest: string)
    requires PlainHost(host) && host != "users" && |rest| >= 7 && rest[0] == '/' && s == HTTPS + (host + rest)
    ensures !At(s, 7, USERS)
  {
    assert forall k | 0 <= k < |host| :: s[8 + k] == host[k] && host[k] != '/';
    if |host| < 5 {
      assert s[8 + |host|] == rest[0] && USERS[1 + |host|] != '/';
      Mismatch(s, 7, USERS, 1 + |host|);
    } else if |host| > 5 {
      assert s[13] == host[5];
      Mismatch(s, 7, USERS, 6);
    } else {
      var k :| 0 <= k < 5 && host[k] != "users"[k];
      assert s[8 + k] == host[k] && USERS[1 + k] == "users"[k];
      Mismatch(s, 7, USERS, 1 + k);
    }
  }

  /** An actor id names its user exactly when the user has no slash, on any host but one called users. */
  lemma ActorIdRoundTrip(host: string, user: string)
    requires PlainHost(host) && host != "users"
    ensures UserFromActorUrl(ActorId(host, user)) == user <==> '/' !in user
  {
    forall j | 0 <= j < |BaseUrl(host)|
      ensures !At(BaseUrl(host) + USERS + user, j, USERS)
    {
      UsersStandsOnce(host, user, j);
    }
    CutJoined(BaseUrl(host), USERS, user);
    if '/' !in user {
      AbsentChar(user, '/');
    } else {
      SlashIsCut(user);
    }
  }

  lemma SlashIsCut(s: string)
    requires '/' in s
    ensures |UpToSlash(s)| < |s|
  {
    var i: nat :| i < |s| && s[i] == '/';
    assert s[i..i + 1] == "/" && At(s, i, "/");
  }

  /** The URLs as they are printed. */
  lemma StatusPrintedAs(host: string, user: string, id: string)
    ensures StatusUrl(host, user, id) == "https://" + host + ("/users/" + user + "/statuses/" + id)
  {
  }

  lemma ReplyPrintedAs(host: string, user: string, id: string, parent: Bytes)
    ensures ReplyUrl(host, user, id, parent) == StatusUrl(host, user, id) + "?" + ("parent" + "=" + QueryEscape(parent))
  {
    PlainEncodes(PARENT);
  }

  // ---- whose statuses are refused ----

  lemma HostBeforeSlash(host: string, below: string)
    requires PlainHost(host)
    ensures Cut(host + USERS + below, "/").before == host
  {
    assert host + USERS + below == host + "/" + ("users/" + below);
    CutAtChar(host, '/', "users/" + below);
  }

  lemma SamePlainHost(host: string, other: string, rest: string)
    requires PlainHost(host) && PlainHost(other)
    ensures host + USERS <= other + USERS + rest <==> host == other
  {
    var a, b := host + USERS, other + USERS + rest;
    HostBeforeSlash(other, rest);
    if a <= b {
      HostBeforeSlash(host, b[|a|..]);
      assert a + b[|a|..] == b;
    }
  }

  lemma PrefixAfter(front: string, a: string, b: string)
    ensures front + a <= front + b <==> a <= b
  {
    assert (front + a)[|front|..] == a && (front + b)[|front|..] == b;
    if front + a <= front + b {
      assert forall i | 0 <= i < |a| :: a[i] == (front + a)[|front| + i] == (front + b)[|front| + i] == b[i];
    }
  }

  lemma StatusRegrouped(host: string, user: string, id: string)
    ensures StatusUrl(host, user, id) == HTTPS + (host + USERS + (user + STATUSES + id))
    ensures BaseUrl(host) + USERS == HTTPS + (host + USERS)
  {
  }

  lemma BareOfStatus(host: string, user: string, id: string)
    requires PlainHost(host) && PlainId(user) && PlainId(id)
    ensures Bare(StatusUrl(host, user, id)) == StatusUrl(host, user, id)
  {
    PrintedIsPlain(host, user, id);
    BareOfPrinted(StatusUrl(host, user, id), "");
  }

  lemma ForeignText(host: string, other: string, user: string, id: string)
    requires PlainHost(host) && PlainHost(other)
    ensures BaseUrl(host) + USERS <= StatusUrl(other, user, id) <==> other == host
  {
    var tail := user + STATUSES + id;
    StatusRegrouped(other, user, id);
    StatusRegrouped(host, user, id);
    SamePlainHost(host, other, tail);
    PrefixAfter(HTTPS, host + USERS, other + USERS + tail);
  }

  /** The text parser accepts a printed status exactly when it is of the very same host. */
  lemma ForeignTextIsRefused(host: string, other: string, user: string, id: string)
    requires PlainHost(host) && PlainHost(other) && PlainId(user) && PlainId(id)
    ensures ParseLocalStatus(host, StatusUrl(other, user, id)).Some? <==> other == host
  {
    ForeignText(host, other, user, id);
    BareOfStatus(other, user, id);
    LocalStatusRoundTrip(other, user, id, "");
  }

  /** The URL parser accepts one only of the same host in any case, and then gives back the user and the id. */
  lemma ForeignUrlIsRefused(host: string, other: string, user: string, id: string)
    requires PlainHost(host) && PlainHost(other) && PlainId(user) && PlainId(id) && '%' !in user && '%' !in id
    ensures OwnStatusRef(host, StatusUrl(other, user, id)) ==
            if EqualFold(other, host) then Some((user, id)) else None
  {
    ParsePlain(other, user, id);
    DecodedPathRoundTrip(user, id);
  }

  lemma UpToSlashSound(s: string) returns (tail: string)
    ensures s == UpToSlash(s) + tail && (tail == "" || tail[0] == '/') && '/' !in UpToSlash(s)
  {
    var c := Cut(s, "/");
    tail := s[|c.before|..];
    forall i | 0 <= i < |c.before|
      ensures c.before[i] != '/'
    {
      assert s[i..i + 1] == [c.before[i]];
      assert !At(s, i, "/");
    }
    if c.found {
      assert At(s, |c.before|, "/") && s[|c.before|..|c.before| + 1][0] == tail[0];
    }
  }

  lemma SplitSound(rest: string, owner: string, id: string) returns (tail: string)
    requires SplitStatus(rest) == Some((owner, id))
    ensures rest == owner + STATUSES + id + tail && (tail == "" || tail[0] == '/')
    ensures owner != "" && '/' !in id
  {
    var p := Cut(rest, STATUSES);
    tail := UpToSlashSound(p.after);
    assert rest == p.before + STATUSES + p.after;
    assert rest == owner + STATUSES + id + tail;
  }

  /** Whatever URL the text parser accepts spells our host, a user and the tweet it returns, up to a slash. */
  lemma LocalStatusSound(host: string, url: string, owner: string, id: string) returns (tail: string)
    requires ParseLocalStatus(host, url) == Some((owner, id))
    ensures Bare(url) == BaseUrl(host) + USERS + (owner + STATUSES + id + tail)
    ensures owner != "" && '/' !in id && (tail == "" || tail[0] == '/')
  {
    tail := PrefixSound(Bare(url), BaseUrl(host) + USERS, owner, id);
  }

  lemma PrefixSound(bare: string, front: string, owner: string, id: string) returns (tail: string)
    requires front <= bare && SplitStatus(bare[|front|..]) == Some((owner, id))
    ensures bare == front + (owner + STATUSES + id + tail)
    ensures owner != "" && '/' !in id && (tail == "" || tail[0] == '/')
  {
    tail := SplitSound(bare[|front|..], owner, id);
    assert bare == front + bare[|front|..];
  }

  /** Whatever URL the URL parser accepts is on our host, and its decoded path names the user and the tweet. */
  lemma OwnStatusSound(host: string, raw: string, owner: string, id: string) returns (tail: string)
    requires OwnStatusRef(host, raw) == Some((owner, id))
    ensures ParseUrl(raw).Some? && EqualFold(ParseUrl(raw).value.hostname, host)
    ensures ParseUrl(raw).value.path == USERS + (owner + STATUSES + id + tail)
    ensures owner != "" && '/' !in id && (tail == "" || tail[0] == '/')
  {
    tail := PathSound(ParseUrl(raw).value.path, owner, id);
  }

  lemma PathSound(path: string, owner: string, id: string) returns (tail: string)
    requires OwnerAndTweet(path) == Some((owner, id))
    ensures path == USERS + (owner + STATUSES + id + tail)
    ensures owner != "" && '/' !in id && (tail == "" || tail[0] == '/')
  {
    tail := SplitSound(path[|USERS|..], owner, id);
  }

  /** The parent a reply id carries: its own if it has one, else the root of its thread. */
  lemma ReplyCarriesParent(host: string, r: Reply, token: string)
    requires PlainHost(host) && PlainId(token) && (r.id == "" || PlainId(r.id)) && PlainId(r.userId)
    ensures Get(QueryOf(RepliedAs(host, r, token)), PARENT) ==
            Some(match r.parentId case Some(p) => if p == "" then r.rootId else p case None => r.rootId)
    ensures ParseLocalStatus(host, RepliedAs(host, r, token)) ==
            Some((r.userId, if r.id == "" then token else r.id))
  {
    var id := if r.id == "" then token else r.id;
    ServedMatchesReply(host, r.userId, id, ParentOf(r));
    ReplyIdRoundTrip(host, r.userId, id, ParentOf(r));
  }

  /** The parent a tombstone carries: that of the deleted reply if it names one, else the root of its thread. */
  lemma TombstoneCarriesParent(host: string, d: Deletion)
    requires PlainHost(host) && PlainId(d.tweetId) && PlainId(d.userId)
    ensures Get(QueryOf(DeletedAs(host, d)), PARENT) == Some(if d.parentId == "" then d.rootId else d.parentId)
    ensures ParseLocalStatus(host, DeletedAs(host, d)) == Some((d.userId, d.tweetId))
  {
    ServedMatchesReply(host, d.userId, d.tweetId, DeletedParent(d));
    ReplyIdRoundTrip(host, d.userId, d.tweetId, DeletedParent(d));
  }

  // ---- what a URL and a path are taken for ----

  /** The bare URL is all before its first ? or #; its query is what stands between that ? and the next #. */
  lemma BareIs(url: string) returns (query: string, fragment: string)
    ensures url == Bare(url) + query + fragment && '#' !in Bare(url) + query && '?' !in Bare(url)
    ensures fragment == "" || fragment[0] == '#'
    ensures query == "?" + QueryOf(url) || (query == "" && QueryOf(url) == "")
  {
    query, fragment := CutTwice(url, '#', '?');
  }

  /** What may follow the id in a path that is served as that status: nothing, or a segment other than "replies". */
  predicate StatusTail(tail: string) {
    tail == "" || (tail[0] == '/' && ("/replies" <= tail ==> |tail| > 8 && tail[8] != '/'))
  }

  /** A path is served as a status exactly when it spells its user and id, whatever follows but the replies. */
  lemma RoutedSound(path: string, user: string, id: string) returns (tail: string)
    requires Routed(path) == Some((user, id))
    ensures path == StatusPath(user, id) + tail && '/' !in user && '/' !in id && id != "" && StatusTail(tail)
  {
    tail := BelowSound(path[|USERS|..], user, id);
    BelowUsers(path, user, id, tail);
  }

  lemma BelowUsers(path: string, user: string, id: string, tail: string)
    requires USERS <= path && path[|USERS|..] == user + STATUSES + id + tail
    ensures path == StatusPath(user, id) + tail
  {
    assert path == USERS + path[|USERS|..];
  }

  lemma BelowSound(rest: string, user: string, id: string) returns (tail: string)
    requires RoutedBelow(rest) == Some((user, id))
    ensures rest == user + STATUSES + id + tail && '/' !in user && '/' !in id && id != "" && StatusTail(tail)
  {
    var collection := CutIs(rest, '/');
    var below := CutIs(Cut(rest, "/").after, '/');
    tail := CutIs(Cut(Cut(rest, "/").after, "/").after, '/');
    Spelled(rest, user, collection, Cut(rest, "/").after, below, Cut(Cut(rest, "/").after, "/").after, id, tail);
    NotReplies(tail, Cut(Cut(Cut(rest, "/").after, "/").after, "/").after);
  }

  lemma Spelled(rest: string, user: string, t: string, after: string, u: string, last: string, id: string, tail: string)
    requires rest == user + t && t == "/" + after && after == "statuses" + u && u == "/" + last && last == id + tail
    ensures rest == user + STATUSES + id + tail
  {
    assert "/" + ("statuses" + "/") == STATUSES;
  }

  lemma NotReplies(tail: string, s: string)
    requires tail == "" || (tail == "/" + s && UpToSlash(s) != "replies")
    ensures StatusTail(tail)
  {
    if "/replies" <= tail && (|tail| == 8 || tail[8] == '/') {
      assert s == tail[1..];
      assert s[..7] == tail[..8][1..] == "replies";
      RepliesFirst(s);
    }
  }

  lemma RepliesFirst(s: string)
    requires "replies" <= s && (|s| == 7 || s[7] == '/')
    ensures UpToSlash(s) == "replies"
  {
    if |s| == 7 {
      AbsentChar(s, '/');
    } else {
      assert s == "replies" + "/" + s[8..];
      CutAtChar("replies", '/', s[8..]);
    }
  }

  lemma FirstReplies(s: string)
    requires UpToSlash(s) == "replies"
    ensures !StatusTail("/" + s)
  {
    var t := CutIs(s, '/');
    RepliesTail(s, t);
  }

  lemma RepliesTail(s: string, t: string)
    requires s == "replies" + t && (t == "" || t[0] == '/')
    ensures !StatusTail("/" + s)
  {
    assert "/" + s == "/replies" + t;
  }

  lemma RoutedComplete(user: string, id: string, tail: string)
    requires '/' !in user && '/' !in id && id != "" && StatusTail(tail)
    ensures Routed(StatusPath(user, id) + tail) == Some((user, id))
  {
    PathSpelled(user, id, tail);
    RoutedAfterUsers(StatusPath(user, id) + tail, user + "/" + ("statuses" + "/" + (id + tail)));
    BelowComplete(user, id, tail);
  }

  lemma PathSpelled(user: string, id: string, tail: string)
    ensures StatusPath(user, id) + tail == USERS + (user + "/" + ("statuses" + "/" + (id + tail)))
  {
    assert STATUSES == "/" + ("statuses" + "/");
  }

  lemma RoutedAfterUsers(path: string, rest: string)
    requires path == USERS + rest
    ensures Routed(path) == RoutedBelow(rest)
  {
    assert path[|USERS|..] == rest;
  }

  lemma BelowComplete(user: string, id: string, tail: string)
    requires '/' !in user && '/' !in id && id != "" && StatusTail(tail)
    ensures RoutedBelow(user + "/" + ("statuses" + "/" + (id + tail))) == Some((user, id))
  {
    CutAtChar(user, '/', "statuses" + "/" + (id + tail));
    CutAtChar("statuses", '/', id + tail);
    IdBeforeTail(id, tail);
  }

  lemma IdBeforeTail(id: string, tail: string)
    requires '/' !in id && StatusTail(tail)
    ensures var p := Cut(id + tail, "/"); p.before == id && (p.found ==> UpToSlash(p.after) != "replies")
  {
    if tail == "" {
      assert id + tail == id;
      AbsentChar(id, '/');
    } else {
      assert id + tail == id + "/" + tail[1..];
      CutAtChar(id, '/', tail[1..]);
      assert tail == "/" + tail[1..];
      if UpToSlash(tail[1..]) == "replies" {
        FirstReplies(tail[1..]);
      }
    }
  }

  // ---- any plain URL ----

  /** A path nothing in which means anything else to a URL. */
  predicate PlainPath(path: string) {
    path != "" && path[0] == '/' && '?' !in path && '#' !in path && '%' !in path && !HasControl(path)
  }

  lemma PlainUrlHasNo(host: string, path: string, c: char)
    requires PlainHost(host) && PlainPath(path) && (c == '?' || c == '#')
    ensures c !in HTTPS + (host + path) && c !in "//" + host + path
  {
  }

  lemma PlainUrlControl(host: string, path: string)
    requires PlainHost(host) && PlainPath(path)
    ensures !HasControl(HTTPS + (host + path))
  {
    forall i | 0 <= i < |host|
      ensures !IsControl(host[i])
    {
    }
  }

  lemma ParsePlainUrl(host: string, path: string)
    requires PlainHost(host) && PlainPath(path)
    ensures ParseUrl(HTTPS + (host + path)) == Some(Url(host, host, path))
  {
    PlainUrlHasNo(host, path, '?');
    PlainUrlHasNo(host, path, '#');
    PlainUrlControl(host, path);
    AbsentChar(HTTPS + (host + path), '#');
    AfterSchemeOfPrinted(host + path);
    assert "//" + (host + path) == "//" + host + path;
    AbsentChar("//" + host + path, '?');
    HierarchyOfPrinted(host, path);
    PathUnescape(path);
  }
}
