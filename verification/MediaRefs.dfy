/** References to node images: the path segment an attachment carries, and the data URL images travel in. */
module MediaRefs {
  import opened Basics
  import opened Text
  import opened Base64

  const SEP: Byte := '\U{1F}'

  function EncodeMediaRef(userID: Bytes, key: Bytes): string {
    EncodeRaw(Url, userID + [SEP] + key)
  }

  function DecodeMediaRef(ref: string): Option<(string, string)> {
    match DecodeRaw(Url, ref)
    case None => None
    case Some(s) =>
      var p := Cut(s, [SEP]);
      if p.found then Some((p.before, p.after)) else None
  }

  /** A reference comes back as the pair it was made from exactly when the user id has no separator, for any key. */
  lemma MediaRefRoundTrip(userID: Bytes, key: Bytes)
    ensures DecodeMediaRef(EncodeMediaRef(userID, key)) == Some((userID, key)) <==> SEP !in userID
    ensures forall c | c in EncodeMediaRef(userID, key) :: c !in "/?#%"
  {
    var s := userID + [SEP] + key;
    RawRoundTrip(Url, s);
    if SEP !in userID {
      CutAtChar(userID, SEP, key);
    } else {
      var i: nat :| i < |userID| && userID[i] == SEP;
      assert s[i..i + 1] == [SEP] && At(s, i, [SEP]);
      assert |Cut(s, [SEP]).before| <= i;
    }
  }

  /** Distinct (user, image) pairs have distinct references, for user ids without the separator. */
  lemma MediaRefInjective(userID: Bytes, key: Bytes, otherUser: Bytes, otherKey: Bytes)
    requires SEP !in userID && SEP !in otherUser
    requires EncodeMediaRef(userID, key) == EncodeMediaRef(otherUser, otherKey)
    ensures userID == otherUser && key == otherKey
  {
    MediaRefRoundTrip(userID, key);
    MediaRefRoundTrip(otherUser, otherKey);
  }

  // ---- data URLs ----

  const DATA := "data:"
  const BASE64 := ";base64"

  /** How the bridge hands out a fetched image. */
  function DataUrl(mime: Bytes, data: Bytes): string {
    DATA + (if mime == "" then "image/jpeg" else mime) + BASE64 + "," + EncodePadded(data)
  }

  /** How the media proxy reads what the node stored; the bare "mime,base64" form passes too. */
  function ParseDataUrl(file: string): Option<(string, string)> {
    var p := Cut(file, ",");
    if !p.found then None
    else
      match DecodePadded(p.after)
      case None => None
      case Some(data) => Some((TrimSuffix(TrimPrefix(p.before, DATA), BASE64), data))
  }

  lemma ReadsCommaFree(head: string, data: Bytes)
    requires ',' !in head
    ensures ParseDataUrl(head + "," + EncodePadded(data)) ==
            Some((TrimSuffix(TrimPrefix(head, DATA), BASE64), data))
  {
    CutAtChar(head, ',', EncodePadded(data));
    PaddedRoundTrip(data);
  }

  /** A comma before a character base64 does not have makes the file unreadable. */
  lemma EarlyCommaRefused(file: string, comma: nat, bad: nat)
    requires comma < bad < |file| && file[comma] == ',' && file[bad] == ';'
    ensures ParseDataUrl(file) == None
  {
    assert file[comma..comma + 1] == "," && At(file, comma, ",");
    var p := Cut(file, ",");
    assert p.found && |p.before| <= comma;
    BadDigitFails(Std, p.after, bad - |p.before| - 1);
  }

  lemma TrimsToType(mime: string)
    ensures TrimSuffix(TrimPrefix(DATA + mime + BASE64, DATA), BASE64) == mime
  {
    assert DATA + mime + BASE64 == DATA + (mime + BASE64);
    assert (DATA + (mime + BASE64))[|DATA|..] == mime + BASE64;
    assert (mime + BASE64)[|mime|..] == BASE64;
  }

  lemma PrintedReads(mime: Bytes, data: Bytes)
    requires mime != "" && ',' !in mime
    ensures ParseDataUrl(DataUrl(mime, data)) == Some((mime, data))
  {
    var head := DATA + mime + BASE64;
    assert ',' !in head;
    ReadsCommaFree(head, data);
    TrimsToType(mime);
  }

  lemma PrintedRefused(mime: Bytes, data: Bytes)
    requires ',' in mime
    ensures ParseDataUrl(DataUrl(mime, data)) == None
  {
    var i: nat :| i < |mime| && mime[i] == ',';
    var file := DataUrl(mime, data);
    assert file == DATA + (mime + (";" + ("base64," + EncodePadded(data))));
    assert file[|DATA| + i] == ',' && file[|DATA| + |mime|] == ';';
    EarlyCommaRefused(file, |DATA| + i, |DATA| + |mime|);
  }

  /** What was printed is read back exactly when the type has no comma; with one, the file is refused altogether. */
  lemma DataUrlRoundTrip(mime: Bytes, data: Bytes)
    requires mime != ""
    ensures ',' !in mime ==> ParseDataUrl(DataUrl(mime, data)) == Some((mime, data))
    ensures ',' in mime ==> ParseDataUrl(DataUrl(mime, data)) == None
  {
    if ',' !in mime {
      PrintedReads(mime, data);
    } else {
      PrintedRefused(mime, data);
    }
  }

  /** The bare form of the same image is read the same way. */
  lemma BareForm(mime: Bytes, data: Bytes)
    requires ',' !in mime && !(DATA <= mime) && !At(mime, |mime| - |BASE64|, BASE64)
    ensures ParseDataUrl(mime + "," + EncodePadded(data)) == Some((mime, data))
  {
    ReadsCommaFree(mime, data);
  }

  /** An image without a declared type is served as a JPEG. */
  lemma UntypedIsJpeg(data: Bytes)
    ensures ParseDataUrl(DataUrl("", data)) == Some(("image/jpeg", data))
  {
    assert DataUrl("", data) == DataUrl("image/jpeg", data);
    DataUrlRoundTrip("image/jpeg", data);
  }
}
