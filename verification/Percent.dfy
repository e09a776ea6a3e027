/** Percent-encoding of query values (RFC 3986 section 2.1, with the form encoding's plus for space). */
module Percent {
  import opened Basics
  import opened Text

  predicate Unreserved(c: char) {
    'a' <= c <= 'z' || 'A' <= c <= 'Z' || '0' <= c <= '9' || c == '-' || c == '_' || c == '.' || c == '~'
  }

  function HexDigit(v: nat): Byte
    requires v < 16
  {
    if v < 10 then ('0' as int + v) as char else ('A' as int + (v - 10)) as char
  }

  function HexValue(c: char): (v: Option<nat>)
    ensures v.Some? ==> v.value < 16
  {
    if '0' <= c <= '9' then Some(c as int - '0' as int)
    else if 'A' <= c <= 'F' then Some(c as int - 'A' as int + 10)
    else if 'a' <= c <= 'f' then Some(c as int - 'a' as int + 10)
    else None
  }

  function EscapeByte(c: Byte): (s: Bytes)
    ensures s != "" && (s[0] == '%' ==> |s| == 3)
  {
    if Unreserved(c) then [c]
    else if c == ' ' then "+"
    else ['%', HexDigit(c as int / 16), HexDigit(c as int % 16)]
  }

  function QueryEscape(s: Bytes): Bytes {
    if s == [] then "" else EscapeByte(s[0]) + QueryEscape(s[1..])
  }

  /** Decoding fails on a percent sign not followed by two hexadecimal digits; a plus is a space in queries only. */
  function Unescape(s: string, query: bool): (r: Option<string>)
    ensures r.Some? ==> |r.value| <= |s|
    ensures r.Some? && '%' in s ==> |r.value| < |s|
    ensures r.Some? && IsBytes(s) ==> IsBytes(r.value)
  {
    if s == "" then Some("")
    else if s[0] == '%' then
      if |s| < 3 || HexValue(s[1]).None? || HexValue(s[2]).None? then None
      else
        match Unescape(s[3..], query)
        case None => None
        case Some(rest) => Some([(HexValue(s[1]).value * 16 + HexValue(s[2]).value) as char] + rest)
    else
      match Unescape(s[1..], query)
      case None => None
      case Some(rest) => Some([if s[0] == '+' && query then ' ' else s[0]] + rest)
  }

  lemma HexInverts(v: nat)
    requires v < 16
    ensures HexValue(HexDigit(v)) == Some(v)
  {
  }

  lemma EscapeByteInverts(c: Byte, rest: string)
    ensures Unescape(rest, true).Some? ==>
              Unescape(EscapeByte(c) + rest, true) == Some([c] + Unescape(rest, true).value)
  {
    if Unreserved(c) || c == ' ' {
      assert (EscapeByte(c) + rest)[1..] == rest;
    } else {
      TripleInverts(c as int / 16, c as int % 16, rest);
    }
  }

  lemma TripleInverts(x: nat, y: nat, rest: string)
    requires x < 16 && y < 16
    ensures Unescape(rest, true).Some? ==>
              Unescape(['%', HexDigit(x), HexDigit(y)] + rest, true) ==
              Some([(x * 16 + y) as char] + Unescape(rest, true).value)
  {
    assert (['%', HexDigit(x), HexDigit(y)] + rest)[3..] == rest;
    HexInverts(x);
    HexInverts(y);
  }

  /** Decoding inverts encoding, for any bytes. */
  lemma {:induction false} EscapeRoundTrip(s: Bytes)
    ensures Unescape(QueryEscape(s), true) == Some(s)
  {
    if s != [] {
      EscapeRoundTrip(s[1..]);
      EscapeByteInverts(s[0], QueryEscape(s[1..]));
      assert s == [s[0]] + s[1..];
    }
  }

  /** The bytes no URL may contain. */
  predicate IsControl(c: char) {
    c < ' ' || c == '\U{7F}'
  }

  predicate HasControl(s: string) {
    exists i :: 0 <= i < |s| && IsControl(s[i])
  }

  lemma EscapeByteIsSafe(b: Byte, c: char)
    requires c in EscapeByte(b)
    ensures c !in "&=;#?/" && !IsControl(c)
  {
    assert c == b || c in "%+0123456789ABCDEF";
  }

  /** An encoded value has none of the characters that structure a url or a query. */
  lemma {:induction false} EscapeIsSafe(s: Bytes)
    ensures forall c | c in QueryEscape(s) :: c !in "&=;#?/" && !IsControl(c)
    ensures !HasControl(QueryEscape(s))
  {
    if s != [] {
      EscapeIsSafe(s[1..]);
      forall c | c in QueryEscape(s)
        ensures c !in "&=;#?/" && !IsControl(c)
      {
        if c in EscapeByte(s[0]) {
          EscapeByteIsSafe(s[0], c);
        }
      }
    }
  }

  /** Without percent signs decoding a path changes nothing; with one it never gives the path back. */
  lemma {:induction false} PathUnescape(s: string)
    ensures '%' !in s ==> Unescape(s, false) == Some(s)
    ensures '%' in s ==> Unescape(s, false) != Some(s)
  {
    if s != "" && '%' !in s {
      assert s[0] in s && forall c | c in s[1..] :: c in s;
      PathUnescape(s[1..]);
      assert s == [s[0]] + s[1..];
    }
  }

  // ---- queries ----

  /** One key and value, as form encoding prints them. */
  function EncodePair(key: Bytes, value: Bytes): Bytes {
    QueryEscape(key) + "=" + QueryEscape(value)
  }

  /** The first value a query gives a key; unreadable and semicolon-holding parts are skipped. */
  function Get(query: string, key: string): (r: Option<string>)
    ensures r.Some? && IsBytes(query) ==> IsBytes(r.value)
    decreases |query|
  {
    if query == "" then None
    else
      var p := Cut(query, "&");
      var pair := Cut(p.before, "=");
      var k, v := Unescape(pair.before, true), Unescape(pair.after, true);
      if p.before == "" || ';' in p.before || k.None? || v.None? || k.value != key then Get(p.after, key)
      else Some(v.value)
  }

  lemma PairIsOne(key: Bytes, value: Bytes)
    ensures Cut(EncodePair(key, value), "&") == Parts(EncodePair(key, value), "", false)
    ensures Cut(EncodePair(key, value), "=") == Parts(QueryEscape(key), QueryEscape(value), true)
    ensures ';' !in EncodePair(key, value)
  {
    var k, v := QueryEscape(key), QueryEscape(value);
    EscapeIsSafe(key);
    EscapeIsSafe(value);
    assert '&' !in k && '&' !in v && ';' !in k && ';' !in v && '=' !in k;
    AbsentChar(k + "=" + v, '&');
    CutAtChar(k, '=', v);
  }

  lemma GetEncoded(key: Bytes, value: Bytes)
    ensures Get(EncodePair(key, value), key) == Some(value)
  {
    PairIsOne(key, value);
    EscapeRoundTrip(key);
    EscapeRoundTrip(value);
  }

  /** What encoding leaves as it is, and how it spells the rest. */
  lemma EncodedAs(c: Byte)
    ensures QueryEscape([c]) ==
            if 'a' <= c <= 'z' || 'A' <= c <= 'Z' || '0' <= c <= '9' || c in "-_.~" then [c]
            else if c == ' ' then "+"
            else ['%', "0123456789ABCDEF"[c as int / 16], "0123456789ABCDEF"[c as int % 16]]
  {
    assert [c][1..] == [];
    assert forall v: nat | v < 16 :: HexDigit(v) == "0123456789ABCDEF"[v];
  }

  /** A byte at a time. */
  lemma {:induction false} EncodedConcat(a: Bytes, b: Bytes)
    ensures QueryEscape(a + b) == QueryEscape(a) + QueryEscape(b)
  {
    if a == [] {
      assert a + b == b;
    } else {
      EncodedConcat(a[1..], b);
      assert (a + b)[1..] == a[1..] + b && (a + b)[0] == a[0];
      assert EscapeByte(a[0]) + (QueryEscape(a[1..]) + QueryEscape(b)) ==
             EscapeByte(a[0]) + QueryEscape(a[1..]) + QueryEscape(b);
    }
  }

  /** Letters, digits and the four marks stand for themselves. */
  lemma {:induction false} PlainEncodes(s: Bytes)
    requires forall i | 0 <= i < |s| :: Unreserved(s[i])
    ensures QueryEscape(s) == s
  {
    if s != [] {
      PlainEncodes(s[1..]);
      assert s == [s[0]] + s[1..];
    }
  }
}
