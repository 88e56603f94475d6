/**
  Connection URLs whose userinfo may hold a raw password: percent-encoding it for the client
  library, and redacting it for logs. A URL is its UTF-8 bytes.
 */
module ConnectionUrl {
  import opened Basics

  const COLON: byte := 58
  const AT: byte := 64
  const PERCENT: byte := 37
  const QUERY: set<byte> := {63, 35}       // ? #
  const PATH: set<byte> := {47, 63, 35}    // / ? #
  const SCHEME_SEP: Bytes := [58, 47, 47]  // ://
  const REDACTED: Bytes := [60, 114, 101, 100, 97, 99, 116, 101, 100, 62]  // <redacted>

  // ---- Searching ----

  predicate Free(s: Bytes, stop: set<byte>) {
    forall i :: 0 <= i < |s| ==> s[i] !in stop
  }

  /** Index of the first byte in `stop`, or the length. */
  function First(s: Bytes, stop: set<byte>): (r: nat)
    ensures r <= |s| && (r < |s| ==> s[r] in stop)
    ensures forall i :: 0 <= i < r ==> s[i] !in stop
  {
    if s == [] || s[0] in stop then 0 else First(s[1..], stop) + 1
  }

  /** Index of the last `b`, or -1. */
  function Last(s: Bytes, b: byte): (r: int)
    ensures -1 <= r < |s| && (r >= 0 ==> s[r] == b)
    ensures forall i :: r < i < |s| ==> s[i] != b
  {
    if s == [] then -1
    else if s[|s| - 1] == b then |s| - 1
    else Last(s[..|s| - 1], b)
  }

  lemma FirstIs(s: Bytes, stop: set<byte>, r: nat)
    requires r <= |s| && (r < |s| ==> s[r] in stop)
    requires forall i :: 0 <= i < r ==> s[i] !in stop
    ensures First(s, stop) == r
  {
  }

  lemma LastIs(s: Bytes, b: byte, r: nat)
    requires r < |s| && s[r] == b && forall i :: r < i < |s| ==> s[i] != b
    ensures Last(s, b) == r
  {
  }

  /** Where the first `://` begins, if there is one. */
  function SchemeEnd(url: Bytes): (r: Option<nat>)
    ensures r.Some? ==> r.value + 3 <= |url| && url[r.value..r.value + 3] == SCHEME_SEP
  {
    if |url| < 3 then None
    else if url[..3] == SCHEME_SEP then Some(0)
    else
      var r := SchemeEnd(url[1..]);
      if r.None? then None else
        assert url[r.value + 1..r.value + 4] == url[1..][r.value..r.value + 3];
        Some(r.value + 1)
  }

  lemma {:induction false} SchemeEndIs(scheme: Bytes, rest: Bytes)
    requires Free(scheme, {COLON})
    ensures SchemeEnd(scheme + SCHEME_SEP + rest) == Some(|scheme|)
  {
    var url := scheme + SCHEME_SEP + rest;
    if scheme == [] {
      assert url[..3] == SCHEME_SEP;
    } else {
      assert url[0] == scheme[0];
      assert url[1..] == scheme[1..] + SCHEME_SEP + rest;
      SchemeEndIs(scheme[1..], rest);
    }
  }

  // ---- Percent encoding ----

  predicate IsAlphanumeric(b: byte) {
    48 <= b <= 57 || 65 <= b <= 90 || 97 <= b <= 122
  }

  function HexUpper(n: nat): byte
    requires n < 16
  {
    if n < 10 then 48 + n else 55 + n
  }

  function EncodeByte(b: byte): (r: Bytes)
    ensures forall i :: 0 <= i < |r| ==> IsAlphanumeric(r[i]) || r[i] == PERCENT
  {
    if IsAlphanumeric(b) then [b] else [PERCENT, HexUpper(b / 16), HexUpper(b % 16)]
  }

  function Encode(s: Bytes): (r: Bytes)
    ensures forall i :: 0 <= i < |r| ==> IsAlphanumeric(r[i]) || r[i] == PERCENT
  {
    if s == [] then [] else EncodeByte(s[0]) + Encode(s[1..])
  }

  /** Percent-decoding, section 2.1 of RFC 3986: `%` and two hex digits stand for one byte. */
  function Decode(s: Bytes): Bytes {
    if s == [] then []
    else if s[0] == PERCENT && |s| >= 3 && HexValue(s[1]).Some? && HexValue(s[2]).Some? then
      var b: byte := (16 * HexValue(s[1]).value + HexValue(s[2]).value) % 256;
      [b] + Decode(s[3..])
    else [s[0]] + Decode(s[1..])
  }

  /** Letters and digits stand for themselves, any other byte for `%` and two upper-case hex digits. */
  lemma EncodedByte(b: byte)
    ensures 48 <= b <= 57 || 65 <= b <= 90 || 97 <= b <= 122 ==> EncodeByte(b) == [b]
    ensures !(48 <= b <= 57 || 65 <= b <= 90 || 97 <= b <= 122) ==>
              && |EncodeByte(b)| == 3 && EncodeByte(b)[0] == 37
              && (forall i :: 1 <= i <= 2 ==> 48 <= EncodeByte(b)[i] <= 57 || 65 <= EncodeByte(b)[i] <= 70)
  {
  }

  lemma HexDigits(b: byte)
    ensures HexValue(HexUpper(b / 16)) == Some(b / 16) && HexValue(HexUpper(b % 16)) == Some(b % 16)
    ensures (16 * (b / 16) + b % 16) % 256 == b
  {
  }

  lemma DecodeEscape(hi: byte, lo: byte, rest: Bytes)
    requires HexValue(hi).Some? && HexValue(lo).Some?
    ensures Decode([PERCENT, hi, lo] + rest) == [(16 * HexValue(hi).value + HexValue(lo).value) % 256] + Decode(rest)
  {
    hide HexValue;
    assert ([PERCENT, hi, lo] + rest)[3..] == rest;
  }

  lemma DecodeByte(b: byte, rest: Bytes)
    ensures Decode(EncodeByte(b) + rest) == [b] + Decode(rest)
  {
    if IsAlphanumeric(b) {
      assert ([b] + rest)[1..] == rest;
    } else {
      hide HexUpper, HexValue, Decode;
      HexDigits(b);
      DecodeEscape(HexUpper(b / 16), HexUpper(b % 16), rest);
    }
  }

  lemma {:induction false} DecodeEncode(s: Bytes)
    ensures Decode(Encode(s)) == s
  {
    if s != [] {
      hide Decode, EncodeByte;
      DecodeEncode(s[1..]);
      DecodeByte(s[0], Encode(s[1..]));
    }
  }

  // ---- The functions of the source ----

  /** User and password, around the first `:`, encoded one by one. */
  function EncodeUserinfo(userinfo: Bytes): Bytes {
    var colon := First(userinfo, {COLON});
    if colon < |userinfo| then Encode(userinfo[..colon]) + [COLON] + Encode(userinfo[colon + 1..]) else Encode(userinfo)
  }

  /** What follows the `://` with its userinfo, if any, encoded. */
  function EncodeRest(rest: Bytes): Bytes {
    var searchEnd := First(rest, QUERY);
    var at := Last(rest[..searchEnd], AT);
    if at < 0 then rest
    else
      var userinfo, afterAt := rest[..at], rest[at + 1..];
      var hostEnd := First(afterAt, PATH);
      var host, tail := afterAt[..hostEnd], afterAt[hostEnd..];
      EncodeUserinfo(userinfo) + [AT] + host + tail
  }

  function PercentEncodeUserinfo(url: Bytes): Bytes {
    var schemeEnd := SchemeEnd(url);
    if schemeEnd.None? then url
    else url[..schemeEnd.value + 3] + EncodeRest(url[schemeEnd.value + 3..])
  }

  function RedactRest(rest: Bytes): Bytes {
    var searchEnd := First(rest, QUERY);
    var at := Last(rest[..searchEnd], AT);
    if at < 0 && AT in rest then REDACTED
    else
      var afterUserinfo := if at >= 0 then rest[at + 1..] else rest;
      afterUserinfo[..First(afterUserinfo, PATH)]
  }

  function RedactUrl(url: Bytes): Bytes {
    var schemeEnd := SchemeEnd(url);
    if schemeEnd.None? then REDACTED
    else url[..schemeEnd.value + 3] + RedactRest(url[schemeEnd.value + 3..])
  }

  // ---- What a client reads out of a URL ----

  datatype Credentials = Credentials(user: Bytes, password: Option<Bytes>)

  datatype Parts = Parts(scheme: Bytes, credentials: Option<Credentials>, host: Bytes, tail: Bytes)

  function ReadUserinfo(userinfo: Bytes): Credentials {
    var colon := First(userinfo, {COLON});
    if colon < |userinfo| then Credentials(Decode(userinfo[..colon]), Some(Decode(userinfo[colon + 1..])))
    else Credentials(Decode(userinfo), None)
  }

  /**
    Section 3.2 of RFC 3986: the authority ends at the first `/`, `?` or `#`; userinfo is what
    precedes an `@` in it; user and password are percent-decoded.
   */
  function ReadRest(scheme: Bytes, rest: Bytes): Parts {
    var end := First(rest, PATH);
    var authority, tail := rest[..end], rest[end..];
    var at := First(authority, {AT});
    if at < |authority|
    then Parts(scheme, Some(ReadUserinfo(authority[..at])), authority[at + 1..], tail)
    else Parts(scheme, None, authority, tail)
  }

  function Read(url: Bytes): Option<Parts> {
    var schemeEnd := SchemeEnd(url);
    if schemeEnd.None? then None
    else Some(ReadRest(url[..schemeEnd.value], url[schemeEnd.value + 3..]))
  }

  /** Userinfo written raw, as an operator would. */
  function RawUserinfo(c: Credentials): Bytes {
    if c.password.Some? then c.user + [COLON] + c.password.value else c.user
  }

  function EncodedUserinfo(c: Credentials): Bytes {
    if c.password.Some? then Encode(c.user) + [COLON] + Encode(c.password.value) else Encode(c.user)
  }

  function RawUrl(scheme: Bytes, c: Credentials, host: Bytes, tail: Bytes): Bytes {
    scheme + SCHEME_SEP + (RawUserinfo(c) + [AT] + host + tail)
  }

  // ---- Reading back what was encoded ----

  ghost predicate HostOk(host: Bytes) {
    Free(host, PATH) && Free(host, {AT})
  }

  /** Empty, or the start of a path, query or fragment. */
  ghost predicate TailOk(tail: Bytes) {
    tail == [] || tail[0] in PATH
  }

  lemma EncodedIsClean(c: Credentials)
    ensures Free(EncodedUserinfo(c), PATH) && Free(EncodedUserinfo(c), {AT})
    ensures Free(Encode(c.user), {COLON})
  {
  }

  lemma ReadEncodedUserinfo(c: Credentials)
    ensures ReadUserinfo(EncodedUserinfo(c)) == c
  {
    var e, u := EncodedUserinfo(c), Encode(c.user);
    EncodedIsClean(c);
    DecodeEncode(c.user);
    assert e[..|u|] == u;
    FirstIs(e, {COLON}, |u|);
    if c.password.Some? {
      DecodeEncode(c.password.value);
      assert e[|u| + 1..] == Encode(c.password.value);
    }
  }

  lemma ReadEncoded(scheme: Bytes, c: Credentials, host: Bytes, tail: Bytes)
    requires HostOk(host) && TailOk(tail)
    ensures ReadRest(scheme, EncodedUserinfo(c) + [AT] + host + tail) == Parts(scheme, Some(c), host, tail)
  {
    hide First, ReadUserinfo, EncodedUserinfo;
    var e := EncodedUserinfo(c);
    var authority := e + [AT] + host;
    var rest := authority + tail;
    EncodedIsClean(c);
    assert rest[..|authority|] == authority && rest[|authority|..] == tail;
    FirstIs(rest, PATH, |authority|);
    assert authority[..|e|] == e && authority[|e| + 1..] == host;
    FirstIs(authority, {AT}, |e|);
    ReadEncodedUserinfo(c);
  }

  /** The functions act on what follows the first `://`. */
  lemma OnRest(scheme: Bytes, rest: Bytes)
    requires Free(scheme, {COLON})
    ensures PercentEncodeUserinfo(scheme + SCHEME_SEP + rest) == scheme + SCHEME_SEP + EncodeRest(rest)
    ensures RedactUrl(scheme + SCHEME_SEP + rest) == scheme + SCHEME_SEP + RedactRest(rest)
    ensures Read(scheme + SCHEME_SEP + rest) == Some(ReadRest(scheme, rest))
  {
    hide EncodeRest, RedactRest, ReadRest, SchemeEnd;
    var url := scheme + SCHEME_SEP + rest;
    SchemeEndIs(scheme, rest);
    assert url[|scheme| + 3..] == rest && url[..|scheme| + 3] == scheme + SCHEME_SEP && url[..|scheme|] == scheme;
  }

  lemma HostIsClean(rest: Bytes, at: nat)
    requires at < |rest| && at == Last(rest[..First(rest, QUERY)], AT)
    ensures HostOk(rest[at + 1..][..First(rest[at + 1..], PATH)])
  {
    hide First, Last;
    var searchEnd, hostEnd := First(rest, QUERY), First(rest[at + 1..], PATH);
    assert at + 1 + hostEnd <= searchEnd by {
      assert searchEnd < |rest| ==> rest[at + 1..][searchEnd - at - 1] in PATH;
    }
    var host := rest[at + 1..][..hostEnd];
    forall i | 0 <= i < hostEnd
      ensures host[i] != AT
    {
      assert rest[..searchEnd][at + 1 + i] != AT;
    }
  }

  lemma EncodesCredentials(userinfo: Bytes)
    ensures EncodeUserinfo(userinfo) == EncodedUserinfo(RawCredentials(userinfo))
  {
    hide First, Encode;
  }

  lemma EncodeRestCuts(rest: Bytes)
    ensures var at := Last(rest[..First(rest, QUERY)], AT);
            EncodeRest(rest) ==
            if at < 0 then rest
            else
              var afterAt := rest[at + 1..];
              var hostEnd := First(afterAt, PATH);
              EncodedUserinfo(RawCredentials(rest[..at])) + [AT] + afterAt[..hostEnd] + afterAt[hostEnd..]
  {
    hide First, Last, EncodeUserinfo, EncodedUserinfo, RawCredentials;
    var at := Last(rest[..First(rest, QUERY)], AT);
    if at >= 0 {
      EncodesCredentials(rest[..at]);
    }
  }

  /** The first `:` of raw userinfo separates user and password. */
  function RawCredentials(userinfo: Bytes): Credentials {
    var colon := First(userinfo, {COLON});
    if colon < |userinfo| then Credentials(userinfo[..colon], Some(userinfo[colon + 1..])) else Credentials(userinfo, None)
  }

  lemma RawCredentialsOfRaw(c: Credentials)
    requires Free(c.user, {COLON})
    ensures RawCredentials(RawUserinfo(c)) == c
  {
    var raw := RawUserinfo(c);
    assert raw[..|c.user|] == c.user;
    FirstIs(raw, {COLON}, |c.user|);
    if c.password.Some? {
      assert raw[|c.user| + 1..] == c.password.value;
    }
  }

  /** No `@` in the tail before its query or fragment. */
  ghost predicate PathOk(tail: Bytes) {
    Free(tail[..First(tail, QUERY)], {AT})
  }

  lemma SearchEndOfRaw(front: Bytes, tail: Bytes)
    requires Free(front, QUERY)
    ensures First(front + tail, QUERY) == |front| + First(tail, QUERY)
    ensures (front + tail)[..|front| + First(tail, QUERY)] == front + tail[..First(tail, QUERY)]
  {
    hide First;
    var q := First(tail, QUERY);
    assert (front + tail)[..|front| + q] == front + tail[..q];
    FirstIs(front + tail, QUERY, |front| + q);
  }

  lemma LastAtOfRaw(raw: Bytes, after: Bytes)
    requires Free(after, {AT})
    ensures Last(raw + [AT] + after, AT) == |raw|
  {
    hide Last;
    LastIs(raw + [AT] + after, AT, |raw|);
  }

  lemma HostEndOfRaw(host: Bytes, tail: Bytes)
    requires HostOk(host) && TailOk(tail)
    ensures First(host + tail, PATH) == |host|
    ensures (host + tail)[..|host|] == host && (host + tail)[|host|..] == tail
  {
  }

  lemma CutOfRaw(raw: Bytes, host: Bytes, tail: Bytes)
    requires Free(raw, QUERY) && HostOk(host) && TailOk(tail) && PathOk(tail)
    ensures var rest := raw + [AT] + host + tail;
            && Last(rest[..First(rest, QUERY)], AT) == |raw|
            && rest[..|raw|] == raw && rest[|raw| + 1..] == host + tail
  {
    hide First, Last;
    var front := raw + [AT] + host;
    SearchEndOfRaw(front, tail);
    var before := tail[..First(tail, QUERY)];
    assert front + before == raw + [AT] + (host + before);
    LastAtOfRaw(raw, host + before);
  }

  /** Without raw `?` or `#` in the credentials, a client reads back exactly what was written. */
  lemma EncodingRecovers(scheme: Bytes, c: Credentials, host: Bytes, tail: Bytes)
    requires Free(scheme, {COLON}) && Free(c.user, {COLON}) && HostOk(host) && TailOk(tail) && PathOk(tail)
    requires Free(RawUserinfo(c), QUERY)
    ensures Read(PercentEncodeUserinfo(RawUrl(scheme, c, host, tail))) == Some(Parts(scheme, Some(c), host, tail))
  {
    hide First, Last, EncodeRest, ReadRest, Read, RedactUrl, PercentEncodeUserinfo;
    var raw := RawUserinfo(c);
    var rest := raw + [AT] + host + tail;
    OnRest(scheme, rest);
    CutOfRaw(raw, host, tail);
    EncodeRestCuts(rest);
    RawCredentialsOfRaw(c);
    HostEndOfRaw(host, tail);
    OnRest(scheme, EncodedUserinfo(c) + [AT] + host + tail);
    ReadEncoded(scheme, c, host, tail);
  }

  lemma FreeOfCredentials(userinfo: Bytes)
    requires Free(userinfo, QUERY)
    ensures Free(RawUserinfo(RawCredentials(userinfo)), QUERY)
  {
  }

  lemma NoAtInAuthority(rest: Bytes)
    requires Last(rest[..First(rest, QUERY)], AT) < 0
    ensures First(rest[..First(rest, PATH)], {AT}) == First(rest, PATH)
  {
    hide First, Last;
    var end, searchEnd := First(rest, PATH), First(rest, QUERY);
    assert end <= searchEnd;
    assert forall i :: 0 <= i < end ==> rest[..searchEnd][i] != AT;
    FirstIs(rest[..end], {AT}, end);
  }

  lemma ReadWithoutAt(scheme: Bytes, rest: Bytes)
    requires Last(rest[..First(rest, QUERY)], AT) < 0
    ensures ReadRest(scheme, rest).credentials == None
  {
    hide First, Last, ReadUserinfo;
    NoAtInAuthority(rest);
  }

  /** What a client makes of any encoded URL: what precedes the `@` that the encoder settled on. */
  lemma ReadOfEncoded(scheme: Bytes, rest: Bytes)
    ensures var at := Last(rest[..First(rest, QUERY)], AT);
            var c := ReadRest(scheme, EncodeRest(rest)).credentials;
            if at < 0 then c == None
            else c == Some(RawCredentials(rest[..at])) && Free(RawUserinfo(RawCredentials(rest[..at])), QUERY)
  {
    hide First, Last, EncodeRest, ReadRest, EncodedUserinfo, RawCredentials, RawUserinfo;
    var searchEnd := First(rest, QUERY);
    var at := Last(rest[..searchEnd], AT);
    EncodeRestCuts(rest);
    if at < 0 {
      ReadWithoutAt(scheme, rest);
    } else {
      HostIsClean(rest, at);
      var afterAt := rest[at + 1..];
      var hostEnd := First(afterAt, PATH);
      ReadEncoded(scheme, RawCredentials(rest[..at]), afterAt[..hostEnd], afterAt[hostEnd..]);
      assert rest[..at] == rest[..searchEnd][..at];
      FreeOfCredentials(rest[..at]);
    }
  }

  lemma RawOfRawCredentials(userinfo: Bytes)
    ensures RawUserinfo(RawCredentials(userinfo)) == userinfo && Free(RawCredentials(userinfo).user, {COLON})
  {
    hide First;
  }

  lemma PathOkIfLast(raw: Bytes, host: Bytes, tail: Bytes)
    requires Free(raw, QUERY) && HostOk(host)
    requires var rest := raw + [AT] + host + tail; Last(rest[..First(rest, QUERY)], AT) == |raw|
    ensures PathOk(tail)
  {
    hide First, Last;
    var front := raw + [AT] + host;
    SearchEndOfRaw(front, tail);
    var before := tail[..First(tail, QUERY)];
    forall i | 0 <= i < |before|
      ensures before[i] != AT
    {
      assert (front + before)[|front| + i] == before[i];
    }
  }

  /**
    A client reads back exactly what was written if and only if the credentials hold no raw `?`
    or `#`, the user no `:`, and the path no `@`.
   */
  lemma EncodingRecoversIff(scheme: Bytes, c: Credentials, host: Bytes, tail: Bytes)
    requires Free(scheme, {COLON}) && HostOk(host) && TailOk(tail)
    ensures Read(PercentEncodeUserinfo(RawUrl(scheme, c, host, tail))) == Some(Parts(scheme, Some(c), host, tail))
            <==> Free(RawUserinfo(c), QUERY) && Free(c.user, {COLON}) && PathOk(tail)
  {
    hide First, Last, EncodeRest, ReadRest, Read, RedactUrl, PercentEncodeUserinfo, RawUserinfo, RawCredentials, PathOk;
    if Free(RawUserinfo(c), QUERY) && Free(c.user, {COLON}) && PathOk(tail) {
      EncodingRecovers(scheme, c, host, tail);
    } else if Read(PercentEncodeUserinfo(RawUrl(scheme, c, host, tail))) == Some(Parts(scheme, Some(c), host, tail)) {
      var rest := RawUserinfo(c) + [AT] + host + tail;
      var at := Last(rest[..First(rest, QUERY)], AT);
      OnRest(scheme, rest);
      OnRest(scheme, EncodeRest(rest));
      ReadOfEncoded(scheme, rest);
      RawOfRawCredentials(rest[..at]);
      PathOkIfLast(RawUserinfo(c), host, tail);
    }
  }

  /** `r://u@h/a@b`, `r://:p?w@h` and a user `a:b`: one input for each way to fail. */
  lemma EncodingLosesParts()
    ensures var u, h := Credentials([117], None), [104];
            Read(PercentEncodeUserinfo(RawUrl([114], u, h, [47, 97, 64, 98]))) != Some(Parts([114], Some(u), h, [47, 97, 64, 98]))
    ensures var u, h := Credentials([], Some([112, 63, 119])), [104];
            Read(PercentEncodeUserinfo(RawUrl([114], u, h, []))) != Some(Parts([114], Some(u), h, []))
    ensures var u, h := Credentials([97, 58, 98], None), [104];
            Read(PercentEncodeUserinfo(RawUrl([114], u, h, []))) != Some(Parts([114], Some(u), h, []))
  {
    hide Read, PercentEncodeUserinfo, RawUrl;
    var tail: Bytes := [47, 97, 64, 98];
    assert !PathOk(tail) by {
      FirstIs(tail, QUERY, 4);
      assert tail[..4][2] == AT;
    }
    EncodingRecoversIff([114], Credentials([117], None), [104], tail);
    var raw := RawUserinfo(Credentials([], Some([112, 63, 119])));
    assert raw[2] == 63;
    EncodingRecoversIff([114], Credentials([], Some([112, 63, 119])), [104], []);
    var user: Bytes := [97, 58, 98];
    assert user[1] == COLON;
    EncodingRecoversIff([114], Credentials(user, None), [104], []);
  }

  /** A URL without userinfo is passed on as it is. */
  lemma NoUserinfoUnchanged(scheme: Bytes, rest: Bytes)
    requires Free(scheme, {COLON}) && Free(rest[..First(rest, QUERY)], {AT})
    ensures PercentEncodeUserinfo(scheme + SCHEME_SEP + rest) == scheme + SCHEME_SEP + rest
  {
    hide PercentEncodeUserinfo, RedactUrl, Read;
    OnRest(scheme, rest);
  }

  // ---- Redaction ----

  /** The stretch of `s` from just behind `at` to the next `/`, `?` or `#`. */
  function PieceAfter(s: Bytes, at: int): Bytes
    requires -1 <= at < |s|
  {
    s[at + 1..][..First(s[at + 1..], PATH)]
  }

  /** The last `@` of `s` before its first `?` or `#`, or -1. */
  function BoundedAt(s: Bytes): (r: int)
    ensures -1 <= r < |s|
  {
    Last(s[..First(s, QUERY)], AT)
  }

  /** What a log line shows behind the scheme, in terms of the parts that the URL was written from. */
  function Shown(userinfo: Bytes, host: Bytes, tail: Bytes): Bytes {
    if First(userinfo, QUERY) < |userinfo| then
      if BoundedAt(userinfo) < 0 then REDACTED else PieceAfter(userinfo, BoundedAt(userinfo))
    else if BoundedAt(tail) >= 0 then PieceAfter(tail, BoundedAt(tail))
    else host
  }

  lemma PieceInFront(front: Bytes, back: Bytes, at: int)
    requires -1 <= at < |front| && First(front[at + 1..], PATH) < |front| - at - 1
    ensures PieceAfter(front + back, at) == PieceAfter(front, at)
  {
    hide First;
    var f, whole := front[at + 1..], (front + back)[at + 1..];
    assert whole == f + back;
    FirstIs(whole, PATH, First(f, PATH));
    assert whole[..First(f, PATH)] == f[..First(f, PATH)];
  }

  lemma PieceInBack(front: Bytes, back: Bytes, at: nat)
    requires at < |back|
    ensures PieceAfter(front + back, |front| + at) == PieceAfter(back, at)
  {
    hide First;
    assert (front + back)[|front| + at + 1..] == back[at + 1..];
  }

  lemma RedactHides(rest: Bytes)
    requires AT in rest && BoundedAt(rest) < 0
    ensures RedactRest(rest) == REDACTED
  {
    hide First, Last;
  }

  lemma RedactShowsPiece(rest: Bytes, at: nat)
    requires at < |rest| && BoundedAt(rest) == at
    ensures RedactRest(rest) == PieceAfter(rest, at)
  {
    hide First, Last;
  }

  lemma BoundedAtInFront(front: Bytes, back: Bytes)
    requires First(front, QUERY) < |front|
    ensures BoundedAt(front + back) == BoundedAt(front)
  {
    hide First, Last;
    var q := First(front, QUERY);
    FirstIs(front + back, QUERY, q);
    assert (front + back)[..q] == front[..q];
  }

  lemma PieceEndsInFront(front: Bytes)
    requires First(front, QUERY) < |front| && BoundedAt(front) >= 0
    ensures var at := BoundedAt(front); First(front[at + 1..], PATH) < |front| - at - 1
  {
    hide First, Last;
    var q, at := First(front, QUERY), BoundedAt(front);
    assert front[at + 1..][q - at - 1] == front[q];
  }

  lemma RedactDelimited(userinfo: Bytes, after: Bytes)
    requires First(userinfo, QUERY) < |userinfo|
    ensures RedactRest(userinfo + ([AT] + after))
            == if BoundedAt(userinfo) < 0 then REDACTED else PieceAfter(userinfo, BoundedAt(userinfo))
  {
    hide First, Last, PieceAfter, BoundedAt, RedactRest;
    var back := [AT] + after;
    BoundedAtInFront(userinfo, back);
    if BoundedAt(userinfo) < 0 {
      assert (userinfo + back)[|userinfo|] == AT;
      RedactHides(userinfo + back);
    } else {
      PieceEndsInFront(userinfo);
      PieceInFront(userinfo, back, BoundedAt(userinfo));
      RedactShowsPiece(userinfo + back, BoundedAt(userinfo));
    }
  }

  lemma RedactPath(front: Bytes, tail: Bytes)
    requires Free(front, QUERY) && BoundedAt(tail) >= 0
    ensures RedactRest(front + tail) == PieceAfter(tail, BoundedAt(tail))
  {
    hide First, Last, PieceAfter, RedactRest;
    var at := BoundedAt(tail);
    var before := tail[..First(tail, QUERY)];
    SearchEndOfRaw(front, tail);
    forall i | |front| + at < i < |front + before|
      ensures (front + before)[i] != AT
    {
      assert (front + before)[i] == before[i - |front|];
    }
    LastIs(front + before, AT, |front| + at);
    RedactShowsPiece(front + tail, |front| + at);
    PieceInBack(front, tail, at);
  }

  lemma RedactPlain(userinfo: Bytes, host: Bytes, tail: Bytes)
    requires Free(userinfo, QUERY) && HostOk(host) && TailOk(tail) && BoundedAt(tail) < 0
    ensures RedactRest(userinfo + [AT] + host + tail) == host
  {
    hide First, Last, RedactRest;
    CutOfRaw(userinfo, host, tail);
    HostEndOfRaw(host, tail);
    RedactShowsPiece(userinfo + [AT] + host + tail, |userinfo|);
  }

  lemma RedactRestShows(userinfo: Bytes, host: Bytes, tail: Bytes)
    requires HostOk(host) && TailOk(tail)
    ensures RedactRest(userinfo + [AT] + host + tail) == Shown(userinfo, host, tail)
  {
    hide First, Last, RedactRest, PieceAfter, BoundedAt;
    if First(userinfo, QUERY) < |userinfo| {
      assert userinfo + [AT] + host + tail == userinfo + ([AT] + (host + tail));
      RedactDelimited(userinfo, host + tail);
    } else if BoundedAt(tail) >= 0 {
      RedactPath(userinfo + [AT] + host, tail);
    } else {
      RedactPlain(userinfo, host, tail);
    }
  }

  /**
    What a log line shows of any URL with userinfo: the host; or nothing, if a raw `?` or `#`
    precedes every `@` of the userinfo; but a piece of the userinfo, if an `@` precedes the first
    raw `?` or `#` in it, and a piece of the path, if that holds an `@`.
   */
  lemma RedactedShows(scheme: Bytes, userinfo: Bytes, host: Bytes, tail: Bytes)
    requires Free(scheme, {COLON}) && HostOk(host) && TailOk(tail)
    ensures RedactUrl(scheme + SCHEME_SEP + (userinfo + [AT] + host + tail))
            == scheme + SCHEME_SEP + Shown(userinfo, host, tail)
  {
    hide First, Last, PercentEncodeUserinfo, RedactUrl, Read, RedactRest, Shown;
    OnRest(scheme, userinfo + [AT] + host + tail);
    RedactRestShows(userinfo, host, tail);
  }

  /**
    A password with a raw `?` or `#` is fully redacted if and only if no `@` precedes it in the
    userinfo (or the piece behind that `@` happens to read like the redaction mark).
   */
  lemma DelimiterIsRedactedIff(scheme: Bytes, userinfo: Bytes, host: Bytes, tail: Bytes)
    requires Free(scheme, {COLON}) && HostOk(host) && TailOk(tail)
    requires !Free(userinfo, QUERY)
    ensures RedactUrl(scheme + SCHEME_SEP + (userinfo + [AT] + host + tail)) == scheme + SCHEME_SEP + REDACTED
            <==> BoundedAt(userinfo) < 0 || PieceAfter(userinfo, BoundedAt(userinfo)) == REDACTED
  {
    hide First, Last, RedactUrl, PieceAfter;
    RedactedShows(scheme, userinfo, host, tail);
    var shown, prefix := Shown(userinfo, host, tail), scheme + SCHEME_SEP;
    assert (prefix + shown)[|prefix|..] == shown && (prefix + REDACTED)[|prefix|..] == REDACTED;
  }

  /** Of `r://:p@ss?w@h` the log shows `r://ss`, which is neither the host nor the mark. */
  lemma DelimiterIsNotRedacted()
    ensures RedactUrl([114] + SCHEME_SEP + ([58, 112, 64, 115, 115, 63, 119] + [AT] + [104] + []))
            == [114] + SCHEME_SEP + [115, 115]
  {
    hide RedactUrl;
    var userinfo: Bytes := [58, 112, 64, 115, 115, 63, 119];
    FirstIs(userinfo, QUERY, 5);
    LastIs(userinfo[..5], AT, 2);
    assert userinfo[3..] == [115, 115, 63, 119];
    FirstIs(userinfo[3..], PATH, 2);
    RedactedShows([114], userinfo, [104], []);
  }

  /** Of `r://u@h/a@b` the log shows `r://b`: not the host, but a piece of the path. */
  lemma PathIsShown()
    ensures RedactUrl([114] + SCHEME_SEP + ([117] + [AT] + [104] + [47, 97, 64, 98])) == [114] + SCHEME_SEP + [98]
  {
    hide RedactUrl;
    var tail: Bytes := [47, 97, 64, 98];
    FirstIs([117], QUERY, 1);
    FirstIs(tail, QUERY, 4);
    assert tail[..4] == tail;
    LastIs(tail, AT, 2);
    assert tail[3..] == [98];
    FirstIs(tail[3..], PATH, 1);
    RedactedShows([114], [117], [104], tail);
  }

  /** Of a URL without any `@`, the log shows what precedes the path: scheme and host. */
  lemma NoCredentialsShowsHost(scheme: Bytes, host: Bytes, tail: Bytes)
    requires Free(scheme, {COLON}) && HostOk(host) && TailOk(tail) && Free(tail, {AT})
    ensures RedactUrl(scheme + SCHEME_SEP + (host + tail)) == scheme + SCHEME_SEP + host
  {
    hide First, Last, PercentEncodeUserinfo, RedactUrl, Read;
    var rest := host + tail;
    OnRest(scheme, rest);
    assert Free(rest, {AT});
    assert AT !in rest;
    HostEndOfRaw(host, tail);
  }

  /** `://` at position `i`. */
  predicate SeparatorAt(url: Bytes, i: nat) {
    i + 3 <= |url| && url[i] == 58 && url[i + 1] == 47 && url[i + 2] == 47
  }

  lemma {:induction false} NoSchemeEnd(url: Bytes)
    requires forall i: nat :: !SeparatorAt(url, i)
    ensures SchemeEnd(url) == None
    decreases |url|
  {
    if |url| >= 3 {
      assert !SeparatorAt(url, 0);
      assert url[..3] == [url[0], url[1], url[2]];
      forall i: nat
        ensures !SeparatorAt(url[1..], i)
      {
        assert !SeparatorAt(url, i + 1);
      }
      NoSchemeEnd(url[1..]);
    }
  }

  /** Text without `://` is not shown at all, and is passed on as it is. */
  lemma NoSchemeIsRedacted(url: Bytes)
    requires forall i: nat :: !SeparatorAt(url, i)
    ensures RedactUrl(url) == [60, 114, 101, 100, 97, 99, 116, 101, 100, 62]
    ensures PercentEncodeUserinfo(url) == url
  {
    hide SchemeEnd;
    NoSchemeEnd(url);
  }

  /** Where the only `@` comes after a raw `?` or `#`, nothing but the scheme is shown. */
  lemma AmbiguousIsFullyRedacted(scheme: Bytes, rest: Bytes)
    requires Free(scheme, {COLON}) && AT in rest && Free(rest[..First(rest, QUERY)], {AT})
    ensures RedactUrl(scheme + SCHEME_SEP + rest) == scheme + SCHEME_SEP + REDACTED
  {
    hide PercentEncodeUserinfo, RedactUrl, Read;
    OnRest(scheme, rest);
  }
}
