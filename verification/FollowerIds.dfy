/**
 The Warpnet ids of Fediverse accounts: handles resolved through a cache, the
 encoded actor URL as a fallback, and the way back to the actor. Remote answers
 are inputs.
 */
module FollowerIds {
  import opened Basics
  import opened Text
  import opened Base64
  import Percent
  import StatusRefs

  const AP: Bytes := "ap:"
  const THREADS := "threads.net"

  function EncodeActorID(actorUrl: Bytes): string {
    AP + EncodeRaw(Base64.Url, actorUrl)
  }

  function DecodeActorID(id: string): Option<string> {
    match CutPrefix(id, AP)
    case None => None
    case Some(code) => DecodeRaw(Base64.Url, code)
  }

  predicate IsBridgedUserID(id: string) {
    HasPrefix(id, AP) || '@' in id
  }

  /** Encoded actor URLs decode to themselves, are recognised as bridged, and are safe as one key segment. */
  lemma ActorIdRoundTrip(actorUrl: Bytes)
    ensures DecodeActorID(EncodeActorID(actorUrl)) == Some(actorUrl)
    ensures IsBridgedUserID(EncodeActorID(actorUrl))
    ensures '/' !in EncodeActorID(actorUrl) && '@' !in EncodeActorID(actorUrl)
  {
    RawRoundTrip(Base64.Url, actorUrl);
    assert EncodeActorID(actorUrl)[|AP|..] == EncodeRaw(Base64.Url, actorUrl);
    assert '/' !in AP && '@' !in AP;
  }

  /** A handle is never taken for an encoded actor, not even one that begins with the prefix. */
  lemma HandlesDoNotDecode(id: string)
    requires '@' in id
    ensures DecodeActorID(id) == None
  {
    if HasPrefix(id, AP) {
      var i: nat :| i < |id| && id[i] == '@';
      assert id[..|AP|] == AP && '@' !in AP;
      assert id[|AP|..][i - |AP|] == '@';
      BadDigitFails(Base64.Url, id[|AP|..], i - |AP|);
    }
  }

  // ---- handles ----

  function LowerAll(s: string): string {
    if s == "" then "" else [StatusRefs.Lower(s[0])] + LowerAll(s[1..])
  }

  function CanonicalHost(host: string): string {
    var h := TrimPrefix(LowerAll(host), "www.");
    if h == THREADS || h == "threads.com" then THREADS else host
  }

  function TrimSlashes(path: string): string {
    if path != "" && path[|path| - 1] == '/' then TrimSlashes(path[..|path| - 1]) else path
  }

  /** The last element of a path. */
  function BaseName(path: string): string {
    var p := TrimSlashes(path);
    if path == "" then "."
    else if p == "" then "/"
    else match LastIndex(p, "/") case Some(i) => p[i + 1..] case None => p
  }

  /** The handle an actor URL spells, or the URL itself. */
  function HandleFromActorURL(actorUrl: string): string {
    match StatusRefs.ParseUrl(actorUrl)
    case None => actorUrl
    case Some(u) =>
      var name := TrimPrefix(BaseName(u.path), "@");
      if name == "" || name == "." || name == "/" then actorUrl else name + "@" + CanonicalHost(u.host)
  }

  /** An all-digit local part, which WebFinger may not answer for. */
  predicate OpaqueLocalPart(handle: string) {
    var p := Cut(handle, "@");
    p.found && p.before != "" && StatusRefs.AllDigits(p.before)
  }

  // ---- which handle a URL spells ----

  lemma LastSlash(front: string, name: string)
    requires name != "" && '/' !in name
    ensures BaseName(front + "/" + name) == name
  {
    var p := front + "/" + name;
    assert p[|p| - 1] == name[|name| - 1] && name[|name| - 1] in name;
    assert TrimSlashes(p) == p;
    assert p[|front|..|front| + 1] == "/" && At(p, |front|, "/");
    forall j | |front| < j <= |p|
      ensures !At(p, j, "/")
    {
      if j < |p| {
        assert p[j..j + 1][0] == p[j] == name[j - |front| - 1] && name[j - |front| - 1] in name;
      }
    }
    assert LastIndex(p, "/") == Some(|front|);
    assert p[|front| + 1..] == name;
  }

  lemma PlainUrlSpells(host: string, front: string, name: string)
    requires StatusRefs.PlainHost(host) && StatusRefs.PlainPath(front + "/" + name) && name != "" && '/' !in name
    ensures var local := TrimPrefix(name, "@");
            HandleFromActorURL(StatusRefs.HTTPS + (host + (front + "/" + name))) ==
            if local == "" || local == "." then StatusRefs.HTTPS + (host + (front + "/" + name))
            else local + "@" + CanonicalHost(host)
  {
    StatusRefs.ParsePlainUrl(host, front + "/" + name);
    LastSlash(front, name);
    assert TrimPrefix(name, "@") == "/" ==> '/' in name;
  }

  /** A name that leaves a URL's path alone. */
  predicate PlainName(name: string) {
    && name != "" && name != "." && name[0] != '@'
    && forall i | 0 <= i < |name| :: Percent.Unreserved(name[i])
  }

  lemma PlainNamePath(front: string, name: string)
    requires PlainName(name) && (front == "/users" || front == "")
    ensures StatusRefs.PlainPath(front + "/" + name) && StatusRefs.PlainPath(front + "/@" + name) && '/' !in name
  {
    forall i | 0 <= i < |name|
      ensures name[i] !in "/?#%" && !Percent.IsControl(name[i])
    {
    }
  }

  /** An actor URL as most servers print it, and the profile URL people share. */
  function UsersUrl(host: string, name: string): string {
    StatusRefs.HTTPS + (host + ("/users" + "/" + name))
  }

  function AtUrl(host: string, name: string): string {
    StatusRefs.HTTPS + (host + ("" + "/" + ("@" + name)))
  }

  /** Both usual forms of an actor URL spell the account's handle. */
  lemma UsersUrlSpells(host: string, name: string)
    requires StatusRefs.PlainHost(host) && PlainName(name)
    ensures HandleFromActorURL(UsersUrl(host, name)) == name + "@" + CanonicalHost(host)
  {
    PlainNamePath("/users", name);
    PlainUrlSpells(host, "/users", name);
    assert TrimPrefix(name, "@") == name;
  }

  lemma AtUrlSpells(host: string, name: string)
    requires StatusRefs.PlainHost(host) && PlainName(name)
    ensures HandleFromActorURL(AtUrl(host, name)) == name + "@" + CanonicalHost(host)
  {
    PlainNamePath("", name);
    assert "" + "/@" + name == "" + "/" + ("@" + name);
    PlainUrlSpells(host, "", "@" + name);
    assert TrimPrefix("@" + name, "@") == name;
  }

  lemma WithoutWww(host: string, x: string)
    requires !("www." <= x)
    ensures TrimPrefix(host, "www.") == x <==> host == x || host == "www." + x
  {
    if "www." <= host {
      assert host == "www." + host[4..];
    }
    assert ("www." + x)[4..] == x;
  }

  /** Threads answers to one spelling of itself; every other host, in small letters, is its own. */
  lemma CanonicalHostExactly(host: string)
    requires LowerAll(host) == host
    ensures CanonicalHost(host) ==
            if host == "threads.net" || host == "www." + "threads.net" ||
               host == "threads.com" || host == "www." + "threads.com"
            then "threads.net" else host
  {
    assert "threads.net"[0] != 'w' && "threads.com"[0] != 'w';
    WithoutWww(host, "threads.net");
    WithoutWww(host, "threads.com");
  }

  /** A handle is opaque exactly when its local part is a number. */
  lemma OpaqueExactly(name: string, host: string)
    requires '@' !in name
    ensures OpaqueLocalPart(name + "@" + host) <==> name != "" && forall i | 0 <= i < |name| :: '0' <= name[i] <= '9'
  {
    CutAtChar(name, '@', host);
  }

  /** What the actor's host answered: the account's acct over its REST API, and the actor document's preferred name. */
  datatype Answer = Answer(acct: Option<string>, preferred: Option<string>)

  /** The handle the host's REST API gives an opaque id; empty when it gives none. */
  function RestHandle(host: string, id: string, answer: Answer): string {
    if host == "" || id == "" || id == "." || id == "/" || answer.acct.None? || answer.acct.value == "" then ""
    else if '@' in answer.acct.value then answer.acct.value
    else answer.acct.value + "@" + CanonicalHost(host)
  }

  /** The handle learned about an opaque actor, if any. */
  function Learned(u: StatusRefs.Url, answer: Answer): Option<string> {
    var rest := RestHandle(u.host, BaseName(TrimSlashes(u.path)), answer);
    if rest != "" then Some(rest)
    else if answer.preferred.None? || answer.preferred.value == "" then None
    else Some(answer.preferred.value + "@" + CanonicalHost(u.host))
  }

  /** The handle of an actor its URL names naively; only an opaque one is looked up, in the cache first. */
  function Named(naive: string, parsed: Option<StatusRefs.Url>, cached: Option<string>, answer: Answer): string {
    match parsed
    case Some(u) =>
      if !OpaqueLocalPart(naive) then naive
      else if cached.Some? then cached.value
      else (match Learned(u, answer) case Some(h) => h case None => naive)
    case None => naive
  }

  function Cached(handles: map<string, string>, actorUrl: string): Option<string> {
    if actorUrl in handles then Some(handles[actorUrl]) else None
  }

  /** The handle an actor is known by. */
  function Canonical(handles: map<string, string>, actorUrl: string, answer: Answer): string {
    Named(HandleFromActorURL(actorUrl), StatusRefs.ParseUrl(actorUrl), Cached(handles, actorUrl), answer)
  }

  /**
   How an actor is named: by its URL unless that is opaque; an opaque one by the cache, else by the
   account its host names, else by the name in its actor document, and failing all by its URL.
   */
  lemma CanonicalExactly(handles: map<string, string>, actorUrl: string, answer: Answer)
    ensures var h := Canonical(handles, actorUrl, answer);
            var naive, u := HandleFromActorURL(actorUrl), StatusRefs.ParseUrl(actorUrl);
            && (!OpaqueLocalPart(naive) || u.None? ==> h == naive)
            && (OpaqueLocalPart(naive) && u.Some? && actorUrl in handles ==> h == handles[actorUrl])
            && (OpaqueLocalPart(naive) && u.Some? && actorUrl !in handles ==>
                  var acct := RestHandle(u.value.host, BaseName(TrimSlashes(u.value.path)), answer);
                  && (acct != "" ==> h == acct)
                  && (acct == "" && answer.preferred.Some? && answer.preferred.value != "" ==>
                        h == answer.preferred.value + "@" + CanonicalHost(u.value.host))
                  && (acct == "" && (answer.preferred.None? || answer.preferred.value == "") ==> h == naive))
  {
  }

  /** The account a host names for an opaque id: as it is if it is a full handle, else on that host. */
  lemma RestHandleExactly(host: string, id: string, acct: string, preferred: Option<string>)
    requires host != "" && id != "" && id != "." && id != "/" && acct != ""
    ensures RestHandle(host, id, Answer(Some(acct), preferred)) ==
            if '@' in acct then acct else acct + "@" + CanonicalHost(host)
    ensures RestHandle(host, id, Answer(None, preferred)) == RestHandle(host, id, Answer(Some(""), preferred)) == ""
  {
  }

  /** Resolving this actor looks it up and learns its handle. */
  predicate LearnsNow(handles: map<string, string>, actorUrl: string, answer: Answer) {
    var u := StatusRefs.ParseUrl(actorUrl);
    && actorUrl != "" && u.Some? && OpaqueLocalPart(HandleFromActorURL(actorUrl)) && actorUrl !in handles
    && Learned(u.value, answer).Some?
  }

  ghost predicate Handles(handles: map<string, string>) {
    forall actorUrl | actorUrl in handles :: '@' in handles[actorUrl]
  }

  class HandleCache {
    var handles: map<string, string>

    /** Kept by every resolution: whatever is cached is a handle. */
    ghost predicate Valid()
      reads this
    {
      Handles(handles)
    }

    constructor ()
      ensures Valid() && handles == map[]
    {
      handles := map[];
    }

    /** Keeps the cache valid for whatever the callers in this class pass: nothing, or a handle. */
    method RememberHandle(actorUrl: string, handle: string)
      modifies this
      ensures old(Valid()) && (handle == "" || '@' in handle) ==> Valid()
      ensures handles == if actorUrl == "" || handle == "" then old(handles) else old(handles)[actorUrl := handle]
    {
      if actorUrl == "" || handle == "" {
        return;
      }
      handles := handles[actorUrl := handle];
    }

    /** A REST account object, with the two fields it may lack empty. */
    method RememberAccountHandle(uri: string, acct: string)
      requires Valid()
      modifies this
      ensures Valid()
      ensures handles == if uri != "" && '@' in acct then old(handles)[uri := acct] else old(handles)
    {
      if uri == "" || '@' !in acct {
        return;
      }
      RememberHandle(uri, acct);
    }

    method CanonicalHandle(actorUrl: string, answer: Answer) returns (handle: string)
      requires Valid()
      modifies this
      ensures Valid()
      ensures handle == Canonical(old(handles), actorUrl, answer)
      ensures handles ==
              if LearnsNow(old(handles), actorUrl, answer) then old(handles)[actorUrl := handle] else old(handles)
    {
      var naive := HandleFromActorURL(actorUrl);
      if !OpaqueLocalPart(naive) {
        return naive;
      }
      var parsed := StatusRefs.ParseUrl(actorUrl);
      if parsed.None? {
        return naive;
      }
      if actorUrl in handles {
        return handles[actorUrl];
      }
      var u := parsed.value;
      var rest := RestHandle(u.host, BaseName(TrimSlashes(u.path)), answer);
      if rest != "" {
        RememberHandle(actorUrl, rest);
        return rest;
      }
      if answer.preferred.None? || answer.preferred.value == "" {
        return naive;
      }
      handle := answer.preferred.value + "@" + CanonicalHost(u.host);
      RememberHandle(actorUrl, handle);
    }

    /** The cache may drop an entry at any time. */
    method Evict(actorUrl: string)
      requires Valid()
      modifies this
      ensures Valid() && handles == old(handles) - {actorUrl}
    {
      handles := handles - {actorUrl};
    }
  }

  // ---- the ids that are stored ----

  function BridgedUserID(actorUrl: Bytes): string {
    var handle := HandleFromActorURL(actorUrl);
    if '@' in handle then handle else EncodeActorID(actorUrl)
  }

  /** An account with a handle is known by it; one without gets an id that leads back to its URL. */
  lemma BridgedUserIDIs(actorUrl: Bytes, host: string, name: string)
    ensures '@' !in HandleFromActorURL(actorUrl) ==> DecodeActorID(BridgedUserID(actorUrl)) == Some(actorUrl)
    ensures StatusRefs.PlainHost(host) && PlainName(name) && actorUrl == UsersUrl(host, name) ==>
              BridgedUserID(actorUrl) == name + "@" + CanonicalHost(host)
  {
    ActorIdRoundTrip(actorUrl);
    if StatusRefs.PlainHost(host) && PlainName(name) && actorUrl == UsersUrl(host, name) {
      UsersUrlSpells(host, name);
      assert HandleFromActorURL(actorUrl)[|name|] == '@';
    }
  }

  /** The id Add stores a follower under. */
  function FollowerID(handles: map<string, string>, actorUrl: Bytes, answer: Answer): string {
    var handle := Canonical(handles, actorUrl, answer);
    if '@' in handle then handle else BridgedUserID(actorUrl)
  }

  /** The id Undo(Follow) removes, and activities are attributed to. */
  function BridgedUser(handles: map<string, string>, actorUrl: Bytes, answer: Answer): string {
    var handle := Canonical(handles, actorUrl, answer);
    if '@' in handle then handle else EncodeActorID(actorUrl)
  }

  lemma LearnedIsHandle(u: StatusRefs.Url, answer: Answer)
    ensures Learned(u, answer).Some? ==> '@' in Learned(u, answer).value
  {
  }

  lemma NamedIsHandleOrNaive(naive: string, parsed: Option<StatusRefs.Url>, cached: Option<string>, answer: Answer)
    requires cached.Some? ==> '@' in cached.value
    ensures '@' in Named(naive, parsed, cached, answer) || Named(naive, parsed, cached, answer) == naive
  {
    if parsed.Some? {
      LearnedIsHandle(parsed.value, answer);
    }
  }

  lemma CanonicalIsHandleOrNaive(handles: map<string, string>, actorUrl: string, answer: Answer)
    requires Handles(handles)
    ensures var h := Canonical(handles, actorUrl, answer); '@' in h || h == HandleFromActorURL(actorUrl)
  {
    NamedIsHandleOrNaive(HandleFromActorURL(actorUrl), StatusRefs.ParseUrl(actorUrl),
                         Cached(handles, actorUrl), answer);
  }

  /**
   An unfollow removes the id its follow was stored under whenever resolving the actor answers the
   same both times, whatever the caches held; the converse holds too, since the id is that answer
   or, for an answer that is no handle, the encoded URL.
   */
  lemma UndoMatchesAdd(actorUrl: Bytes, addCache: map<string, string>, addAnswer: Answer,
                       undoCache: map<string, string>, undoAnswer: Answer)
    requires Handles(addCache) && Handles(undoCache)
    ensures FollowerID(addCache, actorUrl, addAnswer) == BridgedUser(undoCache, actorUrl, undoAnswer) <==>
            Canonical(addCache, actorUrl, addAnswer) == Canonical(undoCache, actorUrl, undoAnswer)
  {
    ActorIdRoundTrip(actorUrl);
    CanonicalIsHandleOrNaive(addCache, actorUrl, addAnswer);
    CanonicalIsHandleOrNaive(undoCache, actorUrl, undoAnswer);
  }

  /** Whatever a follower is stored under is recognised as a bridged id. */
  lemma StoredIdsAreBridged(handles: map<string, string>, actorUrl: Bytes, answer: Answer)
    ensures IsBridgedUserID(FollowerID(handles, actorUrl, answer))
    ensures IsBridgedUserID(BridgedUser(handles, actorUrl, answer))
  {
    ActorIdRoundTrip(actorUrl);
  }

  // ---- back to actors ----

  predicate IsSelfHost(self: string, host: string) {
    self != "" && StatusRefs.EqualFold(host, self)
  }

  /** The actor a bridged id stands for; finger is what WebFinger, or the cache of its answers, gives a handle. */
  function ResolveActorID(self: string, id: string, finger: map<string, string>): Option<string> {
    match DecodeActorID(id)
    case Some(actorUrl) =>
      var u := StatusRefs.ParseUrl(actorUrl);
      if u.Some? && IsSelfHost(self, u.value.hostname) then None else Some(actorUrl)
    case None =>
      var p := Cut(TrimPrefix(id, "@"), "@");
      if !p.found || p.before == "" || p.after == "" || IsSelfHost(self, p.after) || id !in finger then None
      else Some(finger[id])
  }

  /** An actor on this gateway. */
  predicate SelfHosted(self: string, actorUrl: string) {
    StatusRefs.ParseUrl(actorUrl).Some? && IsSelfHost(self, StatusRefs.ParseUrl(actorUrl).value.hostname)
  }

  /** The fallback id leads back to the actor exactly when it is not our own; no answer from the network is involved. */
  lemma FallbackResolves(self: string, actorUrl: Bytes, finger: map<string, string>)
    ensures ResolveActorID(self, EncodeActorID(actorUrl), finger) ==
            if SelfHosted(self, actorUrl) then None else Some(actorUrl)
  {
    ActorIdRoundTrip(actorUrl);
  }

  /** A node without a host name of its own takes no actor for its own. */
  lemma UnnamedNodeResolves(actorUrl: Bytes, finger: map<string, string>)
    ensures ResolveActorID("", EncodeActorID(actorUrl), finger) == Some(actorUrl)
  {
    FallbackResolves("", actorUrl, finger);
  }

  /** Any stored id resolves by WebFinger when it is a handle and by decoding when it is not, never the other way. */
  lemma StoredIdResolves(self: string, actorUrl: Bytes, handles: map<string, string>, answer: Answer,
                         finger: map<string, string>)
    ensures var id := FollowerID(handles, actorUrl, answer);
            var r := ResolveActorID(self, id, finger);
            if '@' in id then r.Some? ==> id in finger && r.value == finger[id]
            else r == if SelfHosted(self, actorUrl) then None else Some(actorUrl)
  {
    var id := FollowerID(handles, actorUrl, answer);
    if '@' in id {
      HandlesDoNotDecode(id);
    } else {
      FallbackResolves(self, actorUrl, finger);
    }
  }

  /** A handle on this gateway never resolves, whatever WebFinger would say. */
  lemma OwnHandlesAreRefused(self: string, name: string, instance: string, finger: map<string, string>)
    requires name != "" && '@' !in name && IsSelfHost(self, instance)
    ensures ResolveActorID(self, name + "@" + instance, finger) == None
    ensures ResolveActorID(self, "@" + name + "@" + instance, finger) == None
  {
    var id := name + "@" + instance;
    assert id[|name|] == '@' && ("@" + id)[0] == '@';
    assert id[0] == name[0] && id[0] in name;
    assert TrimPrefix(id, "@") == id && TrimPrefix("@" + id, "@") == id;
    assert "@" + name + "@" + instance == "@" + id;
    OwnHandleIsRefused(self, id, name, instance, finger);
    OwnHandleIsRefused(self, "@" + id, name, instance, finger);
  }

  lemma OwnHandleIsRefused(self: string, id: string, name: string, instance: string, finger: map<string, string>)
    requires name != "" && '@' !in name && IsSelfHost(self, instance)
    requires '@' in id && TrimPrefix(id, "@") == name + "@" + instance
    ensures ResolveActorID(self, id, finger) == None
  {
    HandlesDoNotDecode(id);
    CutAtChar(name, '@', instance);
  }

  // ---- listing followers ----

  const MAX_PAGES: nat := 100

  /** What the node answers to one request of a listing. */
  datatype Page = Failed | Followers(ids: seq<string>, cursor: string)

  /** What f gives the ids, in order, without those it gives nothing. */
  function Collect(ids: seq<string>, f: string -> Option<string>): seq<string> {
    if ids == [] then []
    else
      var r := f(ids[|ids| - 1]);
      Collect(ids[..|ids| - 1], f) + if r.Some? then [r.value] else []
  }

  /** The actor a listed id is delivered to: native Warpnet followers and unresolvable ids have none. */
  function ActorOf(self: string, finger: map<string, string>): string -> Option<string> {
    id => if IsBridgedUserID(id) then ResolveActorID(self, id, finger) else None
  }

  function Actors(self: string, ids: seq<string>, finger: map<string, string>): seq<string> {
    Collect(ids, ActorOf(self, finger))
  }

  predicate LastPage(page: Page, cursor: string)
    requires page.Followers?
  {
    page.ids == [] || page.cursor == "" || page.cursor == cursor
  }

  /** All ids listed from request k on, up to the page limit; None when a page fails. Page k answers request k. */
  function Listing(pages: seq<Page>, k: nat, cursor: string): Option<seq<string>>
    decreases MAX_PAGES - k
  {
    if k >= MAX_PAGES then Some([])
    else if k >= |pages| || pages[k].Failed? then None
    else if LastPage(pages[k], cursor) then Some(pages[k].ids)
    else Prepend(pages[k].ids, Listing(pages, k + 1, pages[k].cursor))
  }

  function Prepend(ids: seq<string>, rest: Option<seq<string>>): Option<seq<string>> {
    match rest case None => None case Some(r) => Some(ids + r)
  }

  method AppendActors(self: string, urls: seq<string>, ids: seq<string>, finger: map<string, string>)
    returns (all: seq<string>)
    ensures all == urls + Actors(self, ids, finger)
  {
    all := urls;
    for k := 0 to |ids|
      invariant all == urls + Actors(self, ids[..k], finger)
    {
      assert ids[..k + 1][..k] == ids[..k];
      if IsBridgedUserID(ids[k]) {
        var r := ResolveActorID(self, ids[k], finger);
        if r.Some? {
          all := all + [r.value];
        }
      }
    }
    assert ids[..|ids|] == ids;
  }

  /** What the loop returns with the actors found so far and the listing still to come. */
  function Finish(self: string, urls: seq<string>, rest: Option<seq<string>>, finger: map<string, string>)
    : Option<seq<string>>
  {
    match rest case None => None case Some(ids) => Some(urls + Actors(self, ids, finger))
  }

  lemma FinishFromNothing(self: string, rest: Option<seq<string>>, finger: map<string, string>)
    ensures Finish(self, [], rest, finger) ==
            match rest case None => None case Some(ids) => Some(Actors(self, ids, finger))
  {
    if rest.Some? {
      assert [] + Actors(self, rest.value, finger) == Actors(self, rest.value, finger);
    }
  }

  lemma {:induction false} CollectConcat(a: seq<string>, b: seq<string>, f: string -> Option<string>)
    ensures Collect(a + b, f) == Collect(a, f) + Collect(b, f)
  {
    if b == [] {
      assert a + b == a;
    } else {
      CollectConcat(a, b[..|b| - 1], f);
      assert (a + b)[..|a + b| - 1] == a + b[..|b| - 1];
    }
  }

  lemma FinishStep(self: string, urls: seq<string>, ids: seq<string>, rest: Option<seq<string>>,
                   finger: map<string, string>)
    ensures Finish(self, urls, Prepend(ids, rest), finger) ==
            Finish(self, urls + Actors(self, ids, finger), rest, finger)
    ensures Finish(self, urls, Some([]), finger) == Some(urls)
  {
    if rest.Some? {
      CollectConcat(ids, rest.value, ActorOf(self, finger));
      assert urls + (Actors(self, ids, finger) + Actors(self, rest.value, finger)) ==
             urls + Actors(self, ids, finger) + Actors(self, rest.value, finger);
    }
    assert urls + [] == urls;
  }

  lemma ListingStep(pages: seq<Page>, k: nat, cursor: string)
    requires k < |pages| && k < MAX_PAGES && pages[k].Followers?
    ensures Listing(pages, k, cursor) ==
            Prepend(pages[k].ids,
                    if LastPage(pages[k], cursor) then Some([]) else Listing(pages, k + 1, pages[k].cursor))
  {
    assert pages[k].ids + [] == pages[k].ids;
  }

  lemma {:induction false} CollectMembers(ids: seq<string>, f: string -> Option<string>, x: string)
    ensures x in Collect(ids, f) <==> exists id | id in ids :: f(id) == Some(x)
  {
    if ids != [] {
      var front, last := ids[..|ids| - 1], ids[|ids| - 1];
      CollectMembers(front, f, x);
      assert ids == front + [last];
      assert last in ids;
    }
  }

  /** The listing loop: the actors of every id listed, or nothing at all when a page fails. */
  method List(self: string, pages: seq<Page>, finger: map<string, string>) returns (urls: Option<seq<string>>)
    ensures urls == match Listing(pages, 0, "")
                    case None => None
                    case Some(ids) => Some(Actors(self, ids, finger))
  {
    var cursor := "";
    var all: seq<string> := [];
    FinishFromNothing(self, Listing(pages, 0, ""), finger);
    for k := 0 to MAX_PAGES
      invariant k <= |pages|
      invariant Finish(self, [], Listing(pages, 0, ""), finger) ==
                Finish(self, all, Listing(pages, k, cursor), finger)
    {
      if k >= |pages| || pages[k].Failed? {
        return None;
      }
      var page := pages[k];
      ListingStep(pages, k, cursor);
      ghost var more := if LastPage(page, cursor) then Some([])
                        else Listing(pages, k + 1, page.cursor);
      FinishStep(self, all, page.ids, more, finger);
      all := AppendActors(self, all, page.ids, finger);
      if page.ids == [] || page.cursor == "" || page.cursor == cursor {
        return Some(all);
      }
      cursor := page.cursor;
    }
    FinishStep(self, all, [], Some([]), finger);
    return Some(all);
  }

  // ---- which pages a listing covers ----

  /** The cursor request k carries. */
  function CursorAt(pages: seq<Page>, k: nat): string {
    if k == 0 || k > |pages| || pages[k - 1].Failed? then "" else pages[k - 1].cursor
  }

  /** Request i is followed by another: its page lists ids and leads to a new cursor. */
  predicate LeadsOn(pages: seq<Page>, i: nat)
    requires i < |pages|
  {
    pages[i].Followers? && pages[i].ids != [] && pages[i].cursor != "" && pages[i].cursor != CursorAt(pages, i)
  }

  function IdsBetween(pages: seq<Page>, k: nat, m: nat): seq<string>
    requires k <= m <= |pages| && forall i | k <= i < m :: pages[i].Followers?
    decreases m - k
  {
    if k == m then [] else pages[k].ids + IdsBetween(pages, k + 1, m)
  }

  /** Requests k to m are answered and each but the last leads on. */
  ghost predicate Chain(pages: seq<Page>, k: nat, m: nat) {
    && k <= m <= |pages| && m <= MAX_PAGES
    && (forall i | k <= i < m :: pages[i].Followers?)
    && (forall i | k <= i < m - 1 :: LeadsOn(pages, i))
  }

  lemma {:induction false} ListingChain(pages: seq<Page>, k: nat) returns (m: nat)
    requires k <= |pages| && k <= MAX_PAGES
    ensures Chain(pages, k, m)
    ensures var l := Listing(pages, k, CursorAt(pages, k));
            if m == MAX_PAGES || (m > k && !LeadsOn(pages, m - 1)) then l == Some(IdsBetween(pages, k, m))
            else l == None && (m == |pages| || pages[m].Failed?)
    decreases MAX_PAGES - k
  {
    if k == MAX_PAGES || k == |pages| || pages[k].Failed? {
      m := k;
    } else {
      ListingStep(pages, k, CursorAt(pages, k));
      if !LeadsOn(pages, k) {
        m := k + 1;
        assert pages[k].ids + IdsBetween(pages, k + 1, k + 1) == pages[k].ids;
        assert pages[k].ids + [] == pages[k].ids;
      } else {
        m := ListingChain(pages, k + 1);
        assert m == k + 1 ==> LeadsOn(pages, m - 1);
      }
    }
  }

  /**
   A listing is the ids of the pages up to the first that is empty, repeats its cursor or has none, or
   up to the hundredth; there is none at all if a page before that fails.
   */
  lemma ListingCovers(pages: seq<Page>) returns (m: nat)
    ensures Chain(pages, 0, m)
    ensures if m == MAX_PAGES || (m > 0 && !LeadsOn(pages, m - 1)) then
              Listing(pages, 0, "") == Some(IdsBetween(pages, 0, m))
            else Listing(pages, 0, "") == None && (m == |pages| || pages[m].Failed?)
  {
    m := ListingChain(pages, 0);
  }

  /** Exactly the actors some listed bridged id resolves to are delivered to. */
  lemma ActorsAre(self: string, ids: seq<string>, finger: map<string, string>, actorUrl: string)
    ensures actorUrl in Actors(self, ids, finger) <==>
            exists id | id in ids :: IsBridgedUserID(id) && ResolveActorID(self, id, finger) == Some(actorUrl)
  {
    var f := ActorOf(self, finger);
    CollectMembers(ids, f, actorUrl);
    forall id | id in ids
      ensures f(id) == Some(actorUrl) <==> IsBridgedUserID(id) && ResolveActorID(self, id, finger) == Some(actorUrl)
    {
    }
  }

  /** A follower stored under the fallback id is never skipped: listed, it is delivered to unless it is our own. */
  lemma FallbackIsListed(self: string, ids: seq<string>, finger: map<string, string>, actorUrl: Bytes)
    requires EncodeActorID(actorUrl) in ids && !SelfHosted(self, actorUrl)
    ensures actorUrl in Actors(self, ids, finger)
  {
    ActorIdRoundTrip(actorUrl);
    FallbackResolves(self, actorUrl, finger);
    ActorsAre(self, ids, finger, actorUrl);
  }

  /** Neither is one stored under a handle WebFinger answers for, on another host. */
  lemma HandleIsListed(self: string, ids: seq<string>, finger: map<string, string>, name: string, instance: string)
    requires name != "" && instance != "" && '@' !in name && !IsSelfHost(self, instance)
    requires name + "@" + instance in ids && name + "@" + instance in finger
    ensures finger[name + "@" + instance] in Actors(self, ids, finger)
  {
    var id := name + "@" + instance;
    HandlesDoNotDecode(id);
    CutAtChar(name, '@', instance);
    assert id[0] == name[0] && id[0] in name;
    assert TrimPrefix(id, "@") == id;
    assert IsBridgedUserID(id) by { assert id[|name|] == '@'; }
    ActorsAre(self, ids, finger, finger[id]);
  }
}
