/** The string operations the codecs are built from. A string is a sequence of bytes, one char each. */
module Text {
  import opened Basics

  type Byte = c: char | c as int < 256 witness ' '
  type Bytes = seq<Byte>

  predicate IsBytes(s: string) {
    forall i | 0 <= i < |s| :: s[i] as int < 256
  }

  /** sub stands in s at position i. */
  predicate At(s: string, i: int, sub: string) {
    0 <= i <= |s| - |sub| && s[i..i + |sub|] == sub
  }

  predicate Contains(s: string, sub: string) {
    exists i :: 0 <= i <= |s| && At(s, i, sub)
  }

  predicate HasPrefix(s: string, prefix: string) {
    prefix <= s
  }

  function CutPrefix(s: string, prefix: string): Option<string> {
    if prefix <= s then Some(s[|prefix|..]) else None
  }

  function TrimPrefix(s: string, prefix: string): string {
    if prefix <= s then s[|prefix|..] else s
  }

  function TrimSuffix(s: string, suffix: string): string {
    if At(s, |s| - |suffix|, suffix) then s[..|s| - |suffix|] else s
  }

  /** The first position of sub from `from` on. */
  function IndexFrom(s: string, sub: string, from: nat): (r: Option<nat>)
    requires from <= |s|
    ensures r.Some? ==> from <= r.value && At(s, r.value, sub) && forall j | from <= j < r.value :: !At(s, j, sub)
    ensures r.None? ==> forall j | from <= j :: !At(s, j, sub)
    decreases |s| - from
  {
    if At(s, from, sub) then Some(from)
    else if from == |s| then None
    else IndexFrom(s, sub, from + 1)
  }

  function Index(s: string, sub: string): Option<nat> {
    IndexFrom(s, sub, 0)
  }

  /** The last position of sub before `to`. */
  function LastIndexBefore(s: string, sub: string, to: nat): (r: Option<nat>)
    ensures r.Some? ==> r.value < to && At(s, r.value, sub) && forall j | r.value < j < to :: !At(s, j, sub)
    ensures r.None? ==> forall j | 0 <= j < to :: !At(s, j, sub)
  {
    if to == 0 then None
    else if At(s, to - 1, sub) then Some(to - 1)
    else LastIndexBefore(s, sub, to - 1)
  }

  function LastIndex(s: string, sub: string): Option<nat> {
    LastIndexBefore(s, sub, |s| + 1)
  }

  datatype Parts = Parts(before: string, after: string, found: bool)

  /** Split around the first sep. */
  function Cut(s: string, sep: string): Parts {
    match Index(s, sep)
    case Some(i) => Parts(s[..i], s[i + |sep|..], true)
    case None => Parts(s, "", false)
  }

  /** Cut recovers what a separator joined, given that it does not occur earlier. */
  lemma CutJoined(a: string, sep: string, b: string)
    requires forall j | 0 <= j < |a| :: !At(a + sep + b, j, sep)
    ensures Cut(a + sep + b, sep) == Parts(a, b, true)
  {
    var s := a + sep + b;
    assert At(s, |a|, sep);
    assert Index(s, sep) == Some(|a|);
  }

  lemma CutAtChar(a: string, c: char, b: string)
    requires c !in a
    ensures Cut(a + [c] + b, [c]) == Parts(a, b, true)
  {
    forall j | 0 <= j < |a|
      ensures !At(a + [c] + b, j, [c])
    {
      assert (a + [c] + b)[j..j + 1][0] == a[j];
    }
    CutJoined(a, [c], b);
  }

  lemma AbsentChar(s: string, c: char)
    requires c !in s
    ensures Index(s, [c]) == None && LastIndex(s, [c]) == None
    ensures Cut(s, [c]) == Parts(s, "", false)
  {
    forall j: nat | j < |s|
      ensures !At(s, j, [c])
    {
      assert s[j..j + 1][0] == s[j];
    }
  }

  /** A cut at a character stops at its first occurrence and leaves out nothing but that one. */
  lemma CutIs(s: string, c: char) returns (tail: string)
    ensures var p := Cut(s, [c]);
            && s == p.before + tail && c !in p.before && p.found == (c in s)
            && tail == if p.found then [c] + p.after else ""
  {
    if c in s {
      var i := FirstOf(s, c);
      var a, b := s[..i], s[i + 1..];
      assert s == a + [c] + b;
      CutAtChar(a, c, b);
      tail := [c] + b;
      assert s == a + tail;
    } else {
      AbsentChar(s, c);
      tail := "";
    }
  }

  lemma {:induction false} FirstOf(s: string, c: char) returns (i: nat)
    requires c in s
    ensures i < |s| && s[i] == c && c !in s[..i]
  {
    if s[0] == c {
      i := 0;
    } else {
      i := FirstOf(s[1..], c);
      i := i + 1;
      assert s[..i] == [s[0]] + s[1..][..i - 1];
    }
  }

  /** Two cuts, the second of what stands before the first. */
  lemma CutTwice(s: string, c: char, d: char) returns (t: string, u: string)
    ensures var p := Cut(Cut(s, [c]).before, [d]);
            && s == p.before + t + u && c !in p.before + t && d !in p.before
            && (u == "" || u[0] == c) && t == if p.found then [d] + p.after else ""
  {
    u := CutIs(s, c);
    t := CutIs(Cut(s, [c]).before, d);
  }

  // ---- white space ----

  /** ASCII white space. */
  predicate IsSpace(c: char) {
    c == ' ' || 9 <= c as int <= 13
  }

  predicate HasSpace(s: string) {
    exists i :: 0 <= i < |s| && IsSpace(s[i])
  }

  function TrimLeft(s: string): string {
    if s != "" && IsSpace(s[0]) then TrimLeft(s[1..]) else s
  }

  function TrimRight(s: string): string {
    if s != "" && IsSpace(s[|s| - 1]) then TrimRight(s[..|s| - 1]) else s
  }

  function TrimSpace(s: string): string {
    TrimRight(TrimLeft(s))
  }

  predicate AllSpace(s: string) {
    forall i | 0 <= i < |s| :: IsSpace(s[i])
  }

  /** Neither end is white space. */
  predicate Tight(s: string) {
    s != "" ==> !IsSpace(s[0]) && !IsSpace(s[|s| - 1])
  }

  lemma {:induction false} TrimLeftIs(s: string) returns (a: string)
    ensures s == a + TrimLeft(s) && AllSpace(a) && (TrimLeft(s) != "" ==> !IsSpace(TrimLeft(s)[0]))
  {
    if s != "" && IsSpace(s[0]) {
      a := TrimLeftIs(s[1..]);
      a := [s[0]] + a;
    } else {
      a := "";
    }
  }

  lemma {:induction false} TrimRightIs(s: string) returns (b: string)
    ensures s == TrimRight(s) + b && AllSpace(b)
    ensures TrimRight(s) != "" ==> !IsSpace(TrimRight(s)[|TrimRight(s)| - 1])
  {
    if s != "" && IsSpace(s[|s| - 1]) {
      b := TrimRightIs(s[..|s| - 1]);
      b := b + [s[|s| - 1]];
    } else {
      b := "";
    }
  }

  /** Trimming removes white space from both ends, all of it and nothing else. */
  lemma TrimSpaceIs(s: string) returns (a: string, b: string)
    ensures s == a + TrimSpace(s) + b && AllSpace(a) && AllSpace(b) && Tight(TrimSpace(s))
  {
    a := TrimLeftIs(s);
    b := TrimRightIs(TrimLeft(s));
    if TrimSpace(s) != "" {
      assert TrimSpace(s)[0] == TrimLeft(s)[0];
    }
  }

  /** The first white space of s. */
  function SpaceIndex(s: string): (r: Option<nat>)
    ensures r.Some? ==> r.value < |s| && IsSpace(s[r.value]) && forall j | 0 <= j < r.value :: !IsSpace(s[j])
    ensures r.None? <==> !HasSpace(s)
  {
    if s == "" then None
    else if IsSpace(s[0]) then Some(0)
    else match SpaceIndex(s[1..]) case Some(i) => Some(i + 1) case None => None
  }
}
