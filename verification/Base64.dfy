/** Base64 of byte strings: the URL-safe alphabet unpadded, and the standard one padded (RFC 4648 sections 5 and 4). */
module Base64 {
  import opened Basics
  import opened Text

  datatype Alphabet = Url | Std

  function Digit(a: Alphabet, v: nat): char
    requires v < 64
  {
    if v < 26 then ('A' as int + v) as char
    else if v < 52 then ('a' as int + (v - 26)) as char
    else if v < 62 then ('0' as int + (v - 52)) as char
    else if v == 62 then (if a.Url? then '-' else '+')
    else if a.Url? then '_' else '/'
  }

  function Value(a: Alphabet, c: char): (v: Option<nat>)
    ensures v.Some? ==> v.value < 64
  {
    if 'A' <= c <= 'Z' then Some(c as int - 'A' as int)
    else if 'a' <= c <= 'z' then Some(c as int - 'a' as int + 26)
    else if '0' <= c <= '9' then Some(c as int - '0' as int + 52)
    else if c == (if a.Url? then '-' else '+') then Some(62)
    else if c == (if a.Url? then '_' else '/') then Some(63)
    else None
  }

  lemma DigitValue(a: Alphabet, v: nat)
    requires v < 64
    ensures Value(a, Digit(a, v)) == Some(v)
  {
  }

  /** All digits of the alphabet. */
  predicate Digits(a: Alphabet, s: string) {
    forall i | 0 <= i < |s| :: Value(a, s[i]).Some?
  }

  // ---- encoding ----

  /** The sextets of one, two or three bytes. */
  function Split(s: Bytes): (v: seq<nat>)
    requires 1 <= |s| <= 3
    ensures |v| == |s| + 1 && forall i | 0 <= i < |v| :: v[i] < 64
  {
    var n := s[0] as int;
    if |s| == 1 then [n / 4, n % 4 * 16]
    else
      var m := s[1] as int;
      if |s| == 2 then [n / 4, n % 4 * 16 + m / 16, m % 16 * 4]
      else
        var k := s[2] as int;
        [n / 4, n % 4 * 16 + m / 16, m % 16 * 4 + k / 64, k % 64]
  }

  function Spell(a: Alphabet, v: seq<nat>): (q: string)
    requires forall i | 0 <= i < |v| :: v[i] < 64
    ensures |q| == |v|
  {
    if v == [] then "" else [Digit(a, v[0])] + Spell(a, v[1..])
  }

  function EncodeRaw(a: Alphabet, s: Bytes): string {
    if |s| == 0 then ""
    else if |s| < 3 then Spell(a, Split(s))
    else Spell(a, Split(s[..3])) + EncodeRaw(a, s[3..])
  }

  function EncodePadded(s: Bytes): string {
    if |s| == 0 then ""
    else if |s| == 1 then Spell(Std, Split(s)) + "=="
    else if |s| == 2 then Spell(Std, Split(s)) + "="
    else Spell(Std, Split(s[..3])) + EncodePadded(s[3..])
  }

  // ---- decoding ----

  /** The values of the digits, when they all are digits. */
  function Values(a: Alphabet, q: string): (r: Option<seq<nat>>)
    ensures r.Some? ==> |r.value| == |q| && forall i | 0 <= i < |q| :: r.value[i] < 64
  {
    if q == "" then Some([])
    else
      var v, rest := Value(a, q[0]), Values(a, q[1..]);
      if v.Some? && rest.Some? then Some([v.value] + rest.value) else None
  }

  /** The bytes of two, three or four sextets; bits left over are ignored. */
  function Join(v: seq<nat>): string
    requires 2 <= |v| <= 4 && forall i | 0 <= i < |v| :: v[i] < 64
  {
    var b := (v[0] * 4 + v[1] / 16) as char;
    if |v| == 2 then [b]
    else
      var c := (v[1] % 16 * 16 + v[2] / 4) as char;
      if |v| == 3 then [b, c] else [b, c, (v[2] % 4 * 64 + v[3]) as char]
  }

  function Group(a: Alphabet, q: string): Option<string>
    requires 2 <= |q| <= 4
  {
    match Values(a, q)
    case None => None
    case Some(v) => Some(Join(v))
  }

  function Append(first: Option<string>, rest: Option<string>): Option<string> {
    if first.Some? && rest.Some? then Some(first.value + rest.value) else None
  }

  function RawGroups(a: Alphabet, s: string): Option<string> {
    if s == "" then Some("")
    else if |s| == 1 then None
    else if |s| <= 4 then Group(a, s)
    else Append(Group(a, s[..4]), RawGroups(a, s[4..]))
  }

  /** Padding may only complete the last group. */
  function PaddedGroups(s: string): Option<string> {
    if s == "" then Some("")
    else if |s| < 4 then None
    else if |s| == 4 && s[2..] == "==" then Group(Std, s[..2])
    else if |s| == 4 && s[3] == '=' then Group(Std, s[..3])
    else Append(Group(Std, s[..4]), PaddedGroups(s[4..]))
  }

  predicate NotNewline(c: char) {
    c != '\r' && c != '\n'
  }

  /** Decoders skip line breaks wherever they stand. */
  function DecodeRaw(a: Alphabet, s: string): Option<string> {
    RawGroups(a, Filter(s, NotNewline))
  }

  function DecodePadded(s: string): Option<string> {
    PaddedGroups(Filter(s, NotNewline))
  }

  // ---- round trips ----

  lemma SextetsRejoin(n: nat, m: nat, k: nat)
    requires n < 256 && m < 256 && k < 256
    ensures n / 4 * 4 + n % 4 * 16 / 16 == n && n / 4 * 4 + (n % 4 * 16 + m / 16) / 16 == n
    ensures (n % 4 * 16 + m / 16) % 16 * 16 + m % 16 * 4 / 4 == m
    ensures (n % 4 * 16 + m / 16) % 16 * 16 + (m % 16 * 4 + k / 64) / 4 == m
    ensures (m % 16 * 4 + k / 64) % 4 * 64 + k % 64 == k
  {
  }

  lemma JoinInverts(s: Bytes)
    requires 1 <= |s| <= 3
    ensures Join(Split(s)) == s
  {
    SextetsRejoin(s[0] as int, if |s| > 1 then s[1] as int else 0, if |s| > 2 then s[2] as int else 0);
  }

  lemma ValuesCons(a: Alphabet, c: char, v: nat, q: string, w: seq<nat>)
    requires Value(a, c) == Some(v) && Values(a, q) == Some(w)
    ensures Values(a, [c] + q) == Some([v] + w)
  {
    assert ([c] + q)[1..] == q;
  }

  lemma {:induction false} SpellInverts(a: Alphabet, v: seq<nat>)
    requires forall i | 0 <= i < |v| :: v[i] < 64
    ensures Values(a, Spell(a, v)) == Some(v)
  {
    if v != [] {
      var rest := v[1..];
      SpellInverts(a, rest);
      DigitValue(a, v[0]);
      ValuesCons(a, Digit(a, v[0]), v[0], Spell(a, rest), rest);
      assert [v[0]] + rest == v;
    }
  }

  lemma {:induction false} ValuesAreDigits(a: Alphabet, q: string)
    ensures Values(a, q).Some? <==> Digits(a, q)
  {
    if q != "" {
      ValuesAreDigits(a, q[1..]);
      assert forall i | 1 <= i < |q| :: q[i] == q[1..][i - 1];
      if Digits(a, q) {
        assert Digits(a, q[1..]);
      }
    }
  }

  lemma GroupInverts(a: Alphabet, s: Bytes)
    requires 1 <= |s| <= 3
    ensures Group(a, Spell(a, Split(s))) == Some(s)
    ensures Digits(a, Spell(a, Split(s)))
  {
    SpellInverts(a, Split(s));
    ValuesAreDigits(a, Spell(a, Split(s)));
    JoinInverts(s);
  }

  lemma {:induction false} KeepsAll(s: string)
    requires forall i | 0 <= i < |s| :: NotNewline(s[i])
    ensures Filter(s, NotNewline) == s
  {
    if s != "" {
      KeepsAll(s[1..]);
    }
  }

  lemma {:induction false} RawGroupsInvert(a: Alphabet, s: Bytes)
    ensures Digits(a, EncodeRaw(a, s))
    ensures RawGroups(a, EncodeRaw(a, s)) == Some(s)
  {
    if 0 < |s| < 3 {
      GroupInverts(a, s);
    } else if |s| >= 3 {
      GroupInverts(a, s[..3]);
      RawGroupsInvert(a, s[3..]);
      var code, rest := Spell(a, Split(s[..3])), EncodeRaw(a, s[3..]);
      assert (code + rest)[..4] == code && (code + rest)[4..] == rest;
      assert s == s[..3] + s[3..];
      assert Append(Group(a, code), RawGroups(a, rest)) == Some(s);
      if rest == "" {
        assert code + rest == code && s[..3] == s;
      }
    }
  }

  lemma {:induction false} PaddedGroupsInvert(s: Bytes)
    ensures PaddedGroups(EncodePadded(s)) == Some(s)
    ensures forall i | 0 <= i < |EncodePadded(s)| :: Value(Std, EncodePadded(s)[i]).Some? || EncodePadded(s)[i] == '='
  {
    if 0 < |s| < 3 {
      GroupInverts(Std, s);
      var code := Spell(Std, Split(s));
      assert EncodePadded(s)[..|code|] == code;
      assert |s| == 2 ==> Value(Std, EncodePadded(s)[2]) == Value(Std, code[2]);
      assert |s| == 1 ==> EncodePadded(s)[2..] == "==";
      assert |s| == 2 ==> EncodePadded(s)[2..][0] == code[2] != '=';
    } else if |s| >= 3 {
      GroupInverts(Std, s[..3]);
      PaddedGroupsInvert(s[3..]);
      var code, rest := Spell(Std, Split(s[..3])), EncodePadded(s[3..]);
      assert (code + rest)[..4] == code && (code + rest)[4..] == rest;
      assert Value(Std, (code + rest)[3]).Some?;
      assert (code + rest)[2..][1] == (code + rest)[3];
      assert s == s[..3] + s[3..];
    }
  }

  lemma SafeDigit(c: char)
    requires Value(Url, c).Some?
    ensures c !in "/?#%@:+=, \r\n"
  {
  }

  /** Raw decoding inverts raw encoding, and the URL-safe code has none of the characters ids and paths are cut at. */
  lemma RawRoundTrip(a: Alphabet, s: Bytes)
    ensures DecodeRaw(a, EncodeRaw(a, s)) == Some(s)
    ensures a.Url? ==> forall c | c in EncodeRaw(a, s) :: c !in "/?#%@:+=, \r\n"
  {
    RawGroupsInvert(a, s);
    KeepsAll(EncodeRaw(a, s));
    if a.Url? {
      forall c | c in EncodeRaw(a, s)
        ensures c !in "/?#%@:+=, \r\n"
      {
        SafeDigit(c);
      }
    }
  }

  lemma DigitIsNotNewline(a: Alphabet, c: char)
    requires Value(a, c).Some? || c == '='
    ensures NotNewline(c)
  {
  }

  lemma PaddedRoundTrip(s: Bytes)
    ensures DecodePadded(EncodePadded(s)) == Some(s)
  {
    PaddedGroupsInvert(s);
    forall i | 0 <= i < |EncodePadded(s)|
      ensures NotNewline(EncodePadded(s)[i])
    {
      DigitIsNotNewline(Std, EncodePadded(s)[i]);
    }
    KeepsAll(EncodePadded(s));
  }

  /** A character that is neither a digit nor a line break makes decoding fail, wherever it stands. */
  lemma {:induction false} BadDigitFails(a: Alphabet, s: string, i: nat)
    requires i < |s| && NotNewline(s[i]) && Value(a, s[i]).None?
    ensures DecodeRaw(a, s).None?
    ensures a.Std? && s[i] != '=' ==> DecodePadded(s).None?
  {
    FilterMembers(s, NotNewline);
    var t := Filter(s, NotNewline);
    assert s[i] in t;
    var k: nat :| k < |t| && t[k] == s[i];
    BadDigitFailsGroups(a, t, k);
  }

  lemma {:induction false} BadDigitFailsGroups(a: Alphabet, s: string, i: nat)
    requires i < |s| && Value(a, s[i]).None?
    ensures RawGroups(a, s).None?
    ensures a.Std? && s[i] != '=' ==> PaddedGroups(s).None?
    decreases |s|
  {
    if |s| < 4 {
      ValuesAreDigits(a, s);
    } else {
      if i < 4 {
        assert s[..4][i] == s[i];
        assert i < 3 ==> s[..3][i] == s[i];
        assert i < 2 ==> s[..2][i] == s[i];
        assert i >= 2 ==> s[2..][i - 2] == s[i];
        ValuesAreDigits(a, s[..4]);
        ValuesAreDigits(a, s[..3]);
        ValuesAreDigits(a, s[..2]);
        assert |s| == 4 ==> s[..4] == s;
      } else {
        assert s[4..][i - 4] == s[i];
        BadDigitFailsGroups(a, s[4..], i - 4);
      }
    }
  }

  // ---- the alphabets ----

  /** The digits as RFC 4648 lists them: capitals, small letters, decimals, and two that tell the alphabets apart. */
  lemma AlphabetIs(a: Alphabet, c: char)
    ensures Value(a, 'A') == Some(0) && Value(a, 'Z') == Some(25) && Value(a, 'a') == Some(26)
    ensures Value(a, 'z') == Some(51) && Value(a, '0') == Some(52) && Value(a, '9') == Some(61)
    ensures Value(Std, '+') == Some(62) && Value(Std, '/') == Some(63)
    ensures Value(Url, '-') == Some(62) && Value(Url, '_') == Some(63)
    ensures 'A' <= c < 'Z' || 'a' <= c < 'z' || '0' <= c < '9' ==>
              Value(a, c).Some? && Value(a, (c as int + 1) as char) == Some(Value(a, c).value + 1)
    ensures Value(a, c).Some? ==> Digit(a, Value(a, c).value) == c
  {
  }

  /** A group's digits, read in base 64, are its bytes, read in base 256, filled up with zero bits. */
  lemma GroupIsBigEndian(s: Bytes)
    requires 1 <= |s| <= 3
    ensures var v := Split(s);
            && |v| == |s| + 1
            && (|s| == 1 ==> v[0] * 64 + v[1] == s[0] as int * 16)
            && (|s| == 2 ==> (v[0] * 64 + v[1]) * 64 + v[2] == (s[0] as int * 256 + s[1] as int) * 4)
            && (|s| == 3 ==> ((v[0] * 64 + v[1]) * 64 + v[2]) * 64 + v[3] ==
                             (s[0] as int * 256 + s[1] as int) * 256 + s[2] as int)
  {
  }
}
