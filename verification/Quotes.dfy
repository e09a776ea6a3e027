/**
 Quotes and replies: the "RE: url" text convention, and the two independent paths
 that read it, one for activities pushed to us and one for notes we pull. Text has
 had its HTML stripped.
 */
module Quotes {
  import opened Basics
  import opened Text
  import StatusRefs

  const RE := "RE: "
  const HTTPS := "https://"

  /** A text that closes with RE: and a URL: the URL and the comment before it. */
  function SplitREQuote(text: string): Option<(string, string)> {
    var t := TrimSpace(text);
    match LastIndex(t, RE + HTTPS)
    case None => None
    case Some(i) =>
      if i > 0 && !IsSpace(t[i - 1]) then None
      else
        var url := t[i + |RE|..];
        if HasSpace(url) then None else Some((url, TrimSpace(t[..i])))
  }

  /** A text that opens with RE: and a URL: the URL and the text after it. */
  function SplitREPrefix(text: string): Option<(string, string)> {
    var t := TrimSpace(text);
    if |t| < 3 || !StatusRefs.EqualFold(t[..3], "re:") then None
    else
      var p := TrimSpace(t[3..]);
      var (url, rest) := match SpaceIndex(p) case Some(i) => (p[..i], TrimSpace(p[i..])) case None => (p, "");
      if HTTPS <= url then Some((url, rest)) else None
  }

  /** The text without its fallback, trailing or leading. */
  function StripQuoteFallback(text: string): Option<string> {
    if SplitREQuote(text).Some? then Some(SplitREQuote(text).value.1)
    else if SplitREPrefix(text).Some? then Some(SplitREPrefix(text).value.1)
    else None
  }

  // ---- notes ----

  /** A property that may be a string or an object with an id or an href. */
  datatype Link = Absent | Str(url: string) | Obj(id: string, href: string)

  /** quotes: the quote properties in the order servers' spellings are tried; texts hold "" where absent. */
  datatype Note = Note(isNote: bool, id: string, inReplyTo: string, quotes: seq<Link>, text: string)

  function LinkUrl(l: Link): string {
    match l case Absent => "" case Str(u) => u case Obj(id, href) => if id != "" then id else href
  }

  /** The first https quote property; "" without one. */
  function QuotedNoteUrl(quotes: seq<Link>): string {
    if quotes == [] then ""
    else if HTTPS <= LinkUrl(quotes[0]) then LinkUrl(quotes[0])
    else QuotedNoteUrl(quotes[1..])
  }

  // ---- pulled notes ----

  /** The threading of a tweet: the URL it answers and the URL it quotes, "" where there is none. */
  datatype Tweet = Tweet(parent: string, quoted: string, text: string)

  function NonEmptyOr(first: Option<string>, other: string): string {
    if first.Some? && first.value != "" then first.value else other
  }

  /** The quoting and threading part of mapping a note to a tweet. */
  function NoteToTweet(n: Note): Option<Tweet> {
    if !n.isNote || n.id == "" then None
    else
      var property, trailing, leading := QuotedNoteUrl(n.quotes), SplitREQuote(n.text), SplitREPrefix(n.text);
      if property != "" then Some(Tweet(n.inReplyTo, property, NonEmptyOr(StripQuoteFallback(n.text), n.text)))
      else if trailing.Some? && trailing.value.1 != "" then
        Some(Tweet(n.inReplyTo, trailing.value.0, trailing.value.1))
      else if n.inReplyTo == "" && leading.Some? then
        Some(Tweet(leading.value.0, "", NonEmptyOr(Some(leading.value.1), n.text)))
      else Some(Tweet(n.inReplyTo, "", n.text))
  }

  // ---- pushed notes ----

  type Target = (string, string) // owner and tweet

  datatype Pushed = Quote(target: Target, text: string) | Reply(target: Target, text: string) | Dropped

  /** What a pushed Create becomes on the network. */
  function TranslateCreate(host: string, n: Note): Pushed {
    var parent := StatusRefs.ParseLocalStatus(host, n.inReplyTo);
    if parent.Some? then Reply(parent.value, n.text)
    else
      var property, trailing, leading := QuotedNoteUrl(n.quotes), SplitREQuote(n.text), SplitREPrefix(n.text);
      var url := if property == "" && trailing.Some? && trailing.value.1 != "" then trailing.value.0 else property;
      var quoted := StatusRefs.ParseLocalStatus(host, url);
      if quoted.Some? then Quote(quoted.value, NonEmptyOr(StripQuoteFallback(n.text), n.text))
      else if leading.None? then Dropped
      else
        var answered := StatusRefs.ParseLocalStatus(host, leading.value.0);
        if answered.None? then Dropped
        else Reply(answered.value, NonEmptyOr(Some(leading.value.1), n.text))
  }

  predicate Ours(host: string, url: string) {
    StatusRefs.ParseLocalStatus(host, url).Some?
  }

  /** The URL a tweet is about. */
  function Selected(t: Tweet): string {
    if t.quoted != "" then t.quoted else t.parent
  }

  /** What pushing a note should make of it, given how it is shown when pulled: what is about our statuses is kept. */
  function Expected(host: string, t: Tweet): Pushed {
    match StatusRefs.ParseLocalStatus(host, Selected(t))
    case None => Dropped
    case Some(target) => if t.quoted != "" then Quote(target, t.text) else Reply(target, t.text)
  }

  lemma EmptyIsNotOurs(host: string)
    ensures !Ours(host, "")
  {
    AbsentChar("", '#');
    AbsentChar("", '?');
  }

  /** If what a pulled note quotes or answers is ours, pushing it gives the same class, target and text. */
  lemma PushAndPullAgree(host: string, n: Note)
    requires n.isNote && n.id != "" && n.inReplyTo == ""
    requires Ours(host, Selected(NoteToTweet(n).value))
    ensures TranslateCreate(host, n) == Expected(host, NoteToTweet(n).value)
    ensures !TranslateCreate(host, n).Dropped?
  {
    EmptyIsNotOurs(host);
  }

  /** The URL a note quotes, by property or by its text's trailing fallback; "" if it quotes none. */
  function Quoted(n: Note): string {
    if QuotedNoteUrl(n.quotes) != "" then QuotedNoteUrl(n.quotes)
    else if SplitREQuote(n.text).Some? && SplitREQuote(n.text).value.1 != "" then SplitREQuote(n.text).value.0
    else ""
  }

  /**
   Over all notes without a parent, the paths disagree exactly when the note quotes something that is
   not ours but its text opens with RE: and one of our statuses: pushed, it becomes a reply to that.
   */
  lemma PushAndPullExactly(host: string, n: Note)
    requires n.isNote && n.id != "" && n.inReplyTo == ""
    ensures TranslateCreate(host, n) == Expected(host, NoteToTweet(n).value) <==>
            !(Quoted(n) != "" && !Ours(host, Quoted(n)) &&
              SplitREPrefix(n.text).Some? && Ours(host, SplitREPrefix(n.text).value.0))
  {
    EmptyIsNotOurs(host);
    QuotedIsShown(n);
  }

  lemma QuotedIsShown(n: Note)
    requires n.isNote && n.id != "" && n.inReplyTo == ""
    ensures NoteToTweet(n).value.quoted == Quoted(n)
  {
  }

  // ---- the text convention ----

  lemma {:induction false} TrimLeftConcat(a: string, b: string)
    ensures TrimLeft(a + b) == if TrimLeft(a) == "" then TrimLeft(b) else TrimLeft(a) + b
  {
    if a == "" {
      assert a + b == b;
    } else if IsSpace(a[0]) {
      TrimLeftConcat(a[1..], b);
      assert (a + b)[1..] == a[1..] + b;
    }
  }

  /** White space at the end makes no difference to the trimmed text. */
  lemma TrimSpaceThenSpace(a: string, c: char)
    requires IsSpace(c)
    ensures TrimSpace(a + [c]) == TrimSpace(a)
  {
    TrimLeftConcat(a, [c]);
    assert TrimLeft([c]) == "";
    if TrimLeft(a) != "" {
      assert (TrimLeft(a) + [c])[..|TrimLeft(a)|] == TrimLeft(a);
    }
  }

  lemma {:induction false} TrimLeftAgain(a: string)
    ensures TrimLeft(TrimLeft(a)) == TrimLeft(a)
  {
    if a != "" && IsSpace(a[0]) {
      TrimLeftAgain(a[1..]);
    }
  }

  lemma TrimSpaceIgnoresLeft(a: string)
    ensures TrimSpace(TrimLeft(a)) == TrimSpace(a)
  {
    TrimLeftAgain(a);
  }

  /** RE: and a URL stand nowhere later than where a space-free URL ends the text. */
  lemma LastRE(front: string, url: string)
    requires HTTPS <= url && !HasSpace(url)
    ensures LastIndex(front + RE + url, RE + HTTPS) == Some(|front|)
  {
    var t, mark := front + RE + url, RE + HTTPS;
    assert t[|front|..|front| + |mark|] == mark;
    assert At(t, |front|, mark);
    forall j | |front| < j <= |t|
      ensures !At(t, j, mark)
    {
      if j + |mark| <= |t| {
        assert t[j..j + |mark|][3] == t[j + 3] == url[j + 3 - |front| - |RE|];
        assert mark[3] == ' ';
      }
    }
  }

  /** What is left of a comment's front once it is trimmed, before its fallback. */
  function Front(comment: string): string {
    if TrimLeft(comment) == "" then "" else TrimLeft(comment) + "\n"
  }

  lemma TrimLeftFallback(comment: string, tail: string)
    requires tail != "" && !IsSpace(tail[0])
    ensures TrimLeft(comment + ("\n" + tail)) == Front(comment) + tail
  {
    TrimLeftConcat(comment, "\n" + tail);
    TrimLeftConcat("\n", tail);
    assert TrimLeft(comment) + ("\n" + tail) == TrimLeft(comment) + "\n" + tail;
  }

  /** Trimming a comment with its fallback trims only the comment's front. */
  lemma TrimFallback(comment: string, url: string)
    requires url != "" && !IsSpace(url[|url| - 1])
    ensures TrimSpace(comment + "\n" + RE + url) == Front(comment) + RE + url
  {
    TrimLeftFallback(comment, RE + url);
    assert comment + "\n" + RE + url == comment + ("\n" + (RE + url));
    assert Front(comment) + RE + url == Front(comment) + (RE + url);
  }

  lemma SplitAtFront(text: string, front: string, url: string)
    requires HTTPS <= url && !HasSpace(url) && TrimSpace(text) == front + RE + url
    requires front != "" ==> IsSpace(front[|front| - 1])
    ensures SplitREQuote(text) == Some((url, TrimSpace(front)))
  {
    var t := front + RE + url;
    LastRE(front, url);
    assert t[|front| + |RE|..] == url;
    assert t[..|front|] == front;
  }

  /** The fallback a quoting server appends to a comment is split into its URL and the comment, trimmed. */
  lemma QuoteFallbackRoundTrip(comment: string, url: string)
    requires HTTPS <= url && !HasSpace(url)
    ensures SplitREQuote(comment + "\n" + RE + url) == Some((url, TrimSpace(comment)))
  {
    var left := TrimLeft(comment);
    TrimFallback(comment, url);
    TrimSpaceIgnoresLeft(comment);
    if left == "" {
      SplitAtFront(comment + "\n" + RE + url, "", url);
    } else {
      SplitAtFront(comment + "\n" + RE + url, left + "\n", url);
      TrimSpaceThenSpace(left, '\n');
    }
  }

  /** A text that is only RE: and a URL is split as a prefix, with nothing left. */
  lemma BarePrefix(url: string)
    requires HTTPS <= url && !HasSpace(url)
    ensures SplitREPrefix(RE + url) == Some((url, ""))
  {
    assert TrimSpace(RE + url) == RE + url by { assert !IsSpace(url[|url| - 1]); }
    assert (RE + url)[..3] == "RE:" && (RE + url)[3..] == " " + url;
    TrimLeftConcat(" ", url);
    assert !IsSpace(url[0]) && !IsSpace(url[|url| - 1]);
  }

  /** A comment followed by the fallback for one of our statuses is a quote of it, with the comment as its text. */
  lemma FallbackOfOurs(host: string, user: string, id: string, n: Note, comment: string)
    requires StatusRefs.PlainHost(host) && StatusRefs.PlainId(user) && StatusRefs.PlainId(id)
    requires !HasSpace(user) && !HasSpace(id) && TrimSpace(comment) != ""
    requires n.isNote && n.id != "" && n.inReplyTo == "" && QuotedNoteUrl(n.quotes) == ""
    requires n.text == comment + "\n" + RE + StatusRefs.StatusUrl(host, user, id)
    ensures TranslateCreate(host, n) == Quote((user, id), TrimSpace(comment))
    ensures NoteToTweet(n) == Some(Tweet("", StatusRefs.StatusUrl(host, user, id), TrimSpace(comment)))
  {
    var url := StatusRefs.StatusUrl(host, user, id);
    StatusUrlHasNoSpace(host, user, id);
    QuoteFallbackRoundTrip(comment, url);
    StatusRefs.LocalStatusRoundTrip(host, user, id, "");
    PushAndPullAgree(host, n);
  }

  lemma StatusUrlHasNoSpace(host: string, user: string, id: string)
    requires StatusRefs.PlainHost(host) && !HasSpace(user) && !HasSpace(id)
    ensures !HasSpace(StatusRefs.StatusUrl(host, user, id)) && HTTPS <= StatusRefs.StatusUrl(host, user, id)
  {
    assert !HasSpace(host) by {
      forall i | 0 <= i < |host| ensures !IsSpace(host[i]) {}
    }
    assert !HasSpace(HTTPS) && !HasSpace(StatusRefs.USERS) && !HasSpace(StatusRefs.STATUSES);
    assert StatusRefs.StatusUrl(host, user, id)[..|HTTPS|] == HTTPS;
  }

  /** The disagreement: every note that quotes something foreign and opens with RE: and one of ours. */
  lemma ForeignQuoteAnsweringOurs(host: string, n: Note, url: string, rest: string)
    requires n.isNote && n.id != "" && n.inReplyTo == ""
    requires Quoted(n) != "" && !Ours(host, Quoted(n))
    requires SplitREPrefix(n.text) == Some((url, rest)) && Ours(host, url)
    ensures NoteToTweet(n).value.quoted == Quoted(n)
    ensures TranslateCreate(host, n) ==
            Reply(StatusRefs.ParseLocalStatus(host, url).value, if rest != "" then rest else n.text)
  {
    EmptyIsNotOurs(host);
    QuotedIsShown(n);
  }

  lemma OneQuote(foreign: string)
    requires HTTPS <= foreign
    ensures QuotedNoteUrl([Str(foreign)]) == foreign
  {
  }

  /** Such a note: a quote property for a foreign status, and a text that is only RE: and the URL of one of ours. */
  lemma ForeignQuoteExample(host: string, user: string, id: string, foreign: string, n: Note)
    requires StatusRefs.PlainHost(host) && StatusRefs.PlainId(user) && StatusRefs.PlainId(id)
    requires !HasSpace(user) && !HasSpace(id) && HTTPS <= foreign && !Ours(host, foreign)
    requires n.isNote && n.id != "" && n.inReplyTo == "" && n.quotes == [Str(foreign)]
    requires n.text == RE + StatusRefs.StatusUrl(host, user, id)
    ensures NoteToTweet(n).value.quoted == foreign
    ensures TranslateCreate(host, n) == Reply((user, id), n.text)
  {
    StatusUrlHasNoSpace(host, user, id);
    BarePrefix(StatusRefs.StatusUrl(host, user, id));
    StatusRefs.LocalStatusRoundTrip(host, user, id, "");
    OneQuote(foreign);
    ForeignQuoteAnsweringOurs(host, n, StatusRefs.StatusUrl(host, user, id), "");
  }

  // ---- what the readers accept, exactly ----

  /** The trailing fallback: what is left of RE: ends in white space or is nothing, and the URL ends the text. */
  ghost predicate EndsWithRE(text: string, url: string, comment: string) {
    && HTTPS <= url && !HasSpace(url)
    && exists front: string :: TrimSpace(text) == front + RE + url && comment == TrimSpace(front) &&
                               (front != "" ==> IsSpace(front[|front| - 1]))
  }

  lemma SplitREQuoteExactly(text: string, url: string, comment: string)
    ensures SplitREQuote(text) == Some((url, comment)) <==> EndsWithRE(text, url, comment)
  {
    if SplitREQuote(text) == Some((url, comment)) {
      var t := TrimSpace(text);
      var i := LastIndex(t, RE + HTTPS).value;
      assert t[i..i + |RE + HTTPS|] == RE + HTTPS;
      assert t[i..i + |RE|] == (RE + HTTPS)[..|RE|] == RE;
      assert t[i + |RE|..][..|HTTPS|] == (RE + HTTPS)[|RE|..] == HTTPS;
      assert t == t[..i] + RE + url;
    }
    if EndsWithRE(text, url, comment) {
      var front: string :| TrimSpace(text) == front + RE + url && comment == TrimSpace(front) &&
                           (front != "" ==> IsSpace(front[|front| - 1]));
      SplitAtFront(text, front, url);
    }
  }

  /** The leading convention: re: in any case, then a URL up to the next white space. */
  ghost predicate StartsWithRE(text: string, url: string, rest: string) {
    && HTTPS <= url && !HasSpace(url)
    && exists mark: string, body: string, tail: string ::
         && TrimSpace(text) == mark + body && |mark| == 3 && mark[0] in "rR" && mark[1] in "eE" && mark[2] == ':'
         && TrimSpace(body) == url + tail && (tail != "" ==> IsSpace(tail[0])) && rest == TrimSpace(tail)
  }

  lemma MarkIsRE(mark: string)
    requires |mark| == 3
    ensures StatusRefs.EqualFold(mark, "re:") <==> mark[0] in "rR" && mark[1] in "eE" && mark[2] == ':'
  {
  }

  lemma UrlBeforeSpace(url: string, tail: string)
    requires !HasSpace(url) && (tail != "" ==> IsSpace(tail[0]))
    ensures SpaceIndex(url + tail) == if tail == "" then None else Some(|url|)
  {
    assert forall i | 0 <= i < |url| :: (url + tail)[i] == url[i];
    if tail != "" {
      assert (url + tail)[|url|] == tail[0];
    }
  }

  lemma WordSplits(p: string) returns (word: string, tail: string)
    ensures p == word + tail && !HasSpace(word) && (tail != "" ==> IsSpace(tail[0]))
    ensures match SpaceIndex(p) case Some(i) => word == p[..i] && tail == p[i..] case None => word == p && tail == ""
  {
    match SpaceIndex(p)
    case Some(i) => word, tail := p[..i], p[i..];
    case None => word, tail := p, "";
  }

  lemma PrefixIsRE(text: string, url: string, rest: string)
    requires SplitREPrefix(text) == Some((url, rest))
    ensures StartsWithRE(text, url, rest)
  {
    var t := TrimSpace(text);
    var word, tail := WordSplits(TrimSpace(t[3..]));
    MarkIsRE(t[..3]);
    assert word == url && rest == TrimSpace(tail);
    assert t == t[..3] + t[3..];
  }

  lemma REIsPrefix(text: string, mark: string, body: string, url: string, tail: string)
    requires HTTPS <= url && !HasSpace(url) && (tail != "" ==> IsSpace(tail[0]))
    requires TrimSpace(text) == mark + body && |mark| == 3 && mark[0] in "rR" && mark[1] in "eE" && mark[2] == ':'
    requires TrimSpace(body) == url + tail
    ensures SplitREPrefix(text) == Some((url, TrimSpace(tail)))
  {
    MarkIsRE(mark);
    UrlBeforeSpace(url, tail);
    assert TrimSpace(text)[..3] == mark && TrimSpace(text)[3..] == body;
    assert (url + tail)[..|url|] == url && (url + tail)[|url|..] == tail;
    assert tail == "" ==> url + tail == url && TrimSpace(tail) == "";
  }

  lemma SplitREPrefixExactly(text: string, url: string, rest: string)
    ensures SplitREPrefix(text) == Some((url, rest)) <==> StartsWithRE(text, url, rest)
  {
    if SplitREPrefix(text) == Some((url, rest)) {
      PrefixIsRE(text, url, rest);
    }
    if StartsWithRE(text, url, rest) {
      var mark: string, body: string, tail: string :|
        && TrimSpace(text) == mark + body && |mark| == 3 && mark[0] in "rR" && mark[1] in "eE" && mark[2] == ':'
        && TrimSpace(body) == url + tail && (tail != "" ==> IsSpace(tail[0])) && rest == TrimSpace(tail);
      REIsPrefix(text, mark, body, url, tail);
    }
  }

  /** The quote property used is the first with an https URL; there is none if none has one. */
  lemma {:induction false} QuotedNoteUrlExactly(quotes: seq<Link>) returns (k: nat)
    ensures k <= |quotes| && forall j | 0 <= j < k :: !(HTTPS <= LinkUrl(quotes[j]))
    ensures if k == |quotes| then QuotedNoteUrl(quotes) == ""
            else HTTPS <= LinkUrl(quotes[k]) && QuotedNoteUrl(quotes) == LinkUrl(quotes[k])
  {
    if quotes == [] || HTTPS <= LinkUrl(quotes[0]) {
      k := 0;
    } else {
      k := QuotedNoteUrlExactly(quotes[1..]);
      assert forall j | 0 < j < |quotes| :: quotes[j] == quotes[1..][j - 1];
      k := k + 1;
    }
  }

  lemma LinkUrlExactly(url: string, id: string, href: string)
    ensures LinkUrl(Str(url)) == url && LinkUrl(Absent) == ""
    ensures LinkUrl(Obj(id, href)) == if id == "" then href else id
  {
  }

  /**
   What any pushed note becomes: an answer to ours stays one with its text; else a note quoting one of
   ours is a quote of it; else one that opens with RE: and ours answers it; anything else is dropped.
   */
  lemma TranslateExactly(host: string, n: Note)
    ensures var pushed, opens := TranslateCreate(host, n), SplitREPrefix(n.text);
            && (pushed.Quote? <==> !Ours(host, n.inReplyTo) && Ours(host, Quoted(n)))
            && (pushed.Reply? <==>
                  || Ours(host, n.inReplyTo)
                  || (!Ours(host, Quoted(n)) && opens.Some? && Ours(host, opens.value.0)))
            && (pushed.Quote? ==> Some(pushed.target) == StatusRefs.ParseLocalStatus(host, Quoted(n)))
            && (pushed.Reply? && Ours(host, n.inReplyTo) ==>
                  Some(pushed.target) == StatusRefs.ParseLocalStatus(host, n.inReplyTo) && pushed.text == n.text)
            && (pushed.Reply? && !Ours(host, n.inReplyTo) ==>
                  && Some(pushed.target) == StatusRefs.ParseLocalStatus(host, opens.value.0)
                  && pushed.text == if opens.value.1 == "" then n.text else opens.value.1)
  {
    EmptyIsNotOurs(host);
  }

  /** The text of a quote is what is left without its fallback, and the whole text if nothing is. */
  lemma QuoteTextExactly(host: string, n: Note)
    requires TranslateCreate(host, n).Quote?
    ensures var text := TranslateCreate(host, n).text;
            && (forall url, comment | EndsWithRE(n.text, url, comment) ::
                  text == if comment == "" then n.text else comment)
            && (SplitREQuote(n.text).None? ==>
                  forall url, rest | StartsWithRE(n.text, url, rest) :: text == if rest == "" then n.text else rest)
            && (SplitREQuote(n.text).None? && SplitREPrefix(n.text).None? ==> text == n.text)
  {
    forall url, comment | EndsWithRE(n.text, url, comment)
      ensures SplitREQuote(n.text) == Some((url, comment))
    {
      SplitREQuoteExactly(n.text, url, comment);
    }
    forall url, rest | StartsWithRE(n.text, url, rest)
      ensures SplitREPrefix(n.text) == Some((url, rest))
    {
      SplitREPrefixExactly(n.text, url, rest);
    }
  }

  /** The plain reply to one of our statuses, by its printed URL: a reply to it pushed, and below it pulled. */
  lemma PlainReply(host: string, user: string, id: string, n: Note)
    requires StatusRefs.PlainHost(host) && StatusRefs.PlainId(user) && StatusRefs.PlainId(id)
    requires n.inReplyTo == StatusRefs.StatusUrl(host, user, id)
    ensures TranslateCreate(host, n) == Reply((user, id), n.text)
    ensures n.isNote && n.id != "" ==> NoteToTweet(n).Some? && NoteToTweet(n).value.parent == n.inReplyTo
  {
    StatusRefs.LocalStatusRoundTrip(host, user, id, "");
    OursIsAnswered(host, n);
    ShownExactly(n);
  }

  lemma OursIsAnswered(host: string, n: Note)
    requires Ours(host, n.inReplyTo)
    ensures TranslateCreate(host, n) == Reply(StatusRefs.ParseLocalStatus(host, n.inReplyTo).value, n.text)
    ensures n.inReplyTo != ""
  {
    EmptyIsNotOurs(host);
  }

  /** How any note is shown: its own parent first, then the one it opens with; what it quotes by property or text. */
  lemma ShownExactly(n: Note)
    ensures NoteToTweet(n).Some? <==> n.isNote && n.id != ""
    ensures NoteToTweet(n).Some? ==>
              var t, opens := NoteToTweet(n).value, SplitREPrefix(n.text);
              && t.quoted == Quoted(n)
              && (n.inReplyTo != "" ==> t.parent == n.inReplyTo)
              && (n.inReplyTo == "" ==> t.parent == if Quoted(n) == "" && opens.Some? then opens.value.0 else "")
              && (Quoted(n) == "" && (n.inReplyTo != "" || opens.None?) ==> t.text == n.text)
  {
  }
}
