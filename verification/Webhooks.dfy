/**
  Signed webhooks with a timestamp header. The keyed hash is a parameter `mac`; nothing is
  claimed about its strength.
 */
module Webhooks {
  import opened Basics
  import opened Decimal
  import opened HeaderText

  type Mac = (Bytes, Bytes) -> Bytes

  datatype SignatureError = MalformedHeader | Mismatch

  datatype TimestampedError = MalformedTimestamp | Stale | Signature(error: SignatureError)

  const DOT: byte := 46

  /** `sha256=` */
  const PREFIX: Bytes := [115, 104, 97, 50, 53, 54, 61]

  // ---- Framing ----

  function Frame(timestamp: int, body: Bytes): Bytes {
    PrintI64(timestamp) + [DOT] + body
  }

  /** The part before the first dot and the part behind it. */
  function Unframe(input: Bytes): Option<(int, Bytes)> {
    var dot := IndexOf(input, DOT);
    if dot == |input| then None
    else
      var timestamp := ParseI64(input[..dot]);
      if timestamp.None? then None else Some((timestamp.value, input[dot + 1..]))
  }

  /** Timestamp and body can be read back from what is signed, whatever bytes the body holds. */
  lemma UnframeFrame(timestamp: int, body: Bytes)
    requires IsI64(timestamp)
    ensures Unframe(Frame(timestamp, body)) == Some((timestamp, body))
  {
    var printed := PrintI64(timestamp);
    PrintI64Chars(timestamp);
    IndexOfIs(Frame(timestamp, body), DOT, |printed|);
    assert Frame(timestamp, body)[..|printed|] == printed;
    assert Frame(timestamp, body)[|printed| + 1..] == body;
    ParsePrintI64(timestamp);
  }

  /** So the signed bytes determine the timestamp and the body. */
  lemma FrameIsInjective(t: int, body: Bytes, t': int, body': Bytes)
    requires IsI64(t) && IsI64(t')
    requires Frame(t, body) == Frame(t', body')
    ensures t == t' && body == body'
  {
    UnframeFrame(t, body);
    UnframeFrame(t', body');
  }

  method TimestampedInput(timestamp: int, body: Bytes) returns (input: Bytes)
    requires IsI64(timestamp)
    ensures input == Frame(timestamp, body) && Unframe(input) == Some((timestamp, body))
  {
    input := PrintI64(timestamp) + [46];
    input := input + body;
    UnframeFrame(timestamp, body);
  }

  // ---- Signing and verifying ----

  function VerifyHex(mac: Mac, secret: Bytes, body: Bytes, signature: Text): Result<(), SignatureError> {
    var provided := DecodeHex(Trim(signature));
    if provided.None? then Err(MalformedHeader)
    else if provided.value == mac(secret, body) then Ok(())
    else Err(Mismatch)
  }

  function VerifyGithub(mac: Mac, secret: Bytes, body: Bytes, header: Text): Result<(), SignatureError> {
    var trimmed := Trim(header);
    if PREFIX <= trimmed then VerifyHex(mac, secret, body, trimmed[|PREFIX|..]) else Err(MalformedHeader)
  }

  function SignGithub(mac: Mac, secret: Bytes, body: Bytes): Bytes {
    PREFIX + EncodeHex(mac(secret, body))
  }

  function SignTimestamped(mac: Mac, secret: Bytes, timestamp: int, body: Bytes): Bytes {
    SignGithub(mac, secret, Frame(timestamp, body))
  }

  function AbsDiff(a: int, b: int): nat {
    if a >= b then a - b else b - a
  }

  /** `trim_start_matches`: strips the prefix as often as it occurs. */
  function StripPrefixes(t: Text): Text {
    if PREFIX <= t then StripPrefixes(t[|PREFIX|..]) else t
  }

  function VerifyTimestamped(mac: Mac, secret: Bytes, body: Bytes, timestampHeader: Text, signatureHeader: Text,
                             now: int, maxSkew: int): Result<Bytes, TimestampedError>
  {
    var timestamp := ParseI64(Trim(timestampHeader));
    if timestamp.None? then Err(MalformedTimestamp)
    else if AbsDiff(now, timestamp.value) > AbsDiff(maxSkew, 0) then Err(Stale)
    else
      var checked := VerifyGithub(mac, secret, Frame(timestamp.value, body), signatureHeader);
      if checked.Err? then Err(Signature(checked.error))
      else
        var bytes := DecodeHex(StripPrefixes(Trim(signatureHeader)));
        if bytes.None? then Err(Signature(MalformedHeader)) else Ok(bytes.value)
  }

  // ---- What is accepted ----

  lemma TrimSigned(h: Text)
    requires AllHex(h)
    ensures Trim(PREFIX + h) == PREFIX + h && Trim(h) == h
  {
  }

  /**
    How a header may be spelled: the prefix, then the hash in hex of either case, with white space
    around the whole and `gap` between the two.
   */
  ghost predicate IsSpelling(header: Text, before: Text, gap: Text, hex: Text, after: Text) {
    && AllWhite(before) && AllWhite(gap) && AllWhite(after)
    && header == before + (PREFIX + gap + hex) + after
  }

  ghost predicate Spells(header: Text, gap: Text, digest: Bytes) {
    exists before, hex, after :: IsSpelling(header, before, gap, hex, after) && DecodeHex(hex) == Some(digest)
  }

  lemma SpellingTrims(header: Text, before: Text, gap: Text, hex: Text, after: Text)
    requires IsSpelling(header, before, gap, hex, after) && AllHex(hex)
    ensures PREFIX <= Trim(header) && Trim(Trim(header)[|PREFIX|..]) == hex
    ensures gap == [] ==> Trim(header)[|PREFIX|..] == hex
  {
    hide Trim;
    HexHasNoWhite(hex);
    if hex == [] {
      assert header == before + PREFIX + (gap + after);
      TrimOf(before, PREFIX, gap + after);
      TrimOf(hex, hex, hex);
      assert hex + hex + hex == hex && PREFIX[|PREFIX|..] == hex;
    } else {
      var t := PREFIX + gap + hex;
      TrimOf(before, t, after);
      assert t[|PREFIX|..] == gap + hex + [];
      TrimOf(gap, hex, []);
    }
  }

  lemma TrimmedSpells(header: Text) returns (before: Text, gap: Text, after: Text)
    requires PREFIX <= Trim(header)
    ensures IsSpelling(header, before, gap, Trim(Trim(header)[|PREFIX|..]), after)
    ensures Trim(Trim(header)[|PREFIX|..]) == Trim(header)[|PREFIX|..] ==> gap == []
  {
    hide Trim;
    var inner;
    before, after := TrimParts(header);
    var rest := Trim(header)[|PREFIX|..];
    assert Trim(header) == PREFIX + rest;
    gap, inner := TrimParts(rest);
    assert header == before + (PREFIX + gap + Trim(rest)) + (inner + after);
    after := inner + after;
  }

  /** Exactly which headers verify: any spelling of the hash, white space behind the prefix included. */
  lemma GithubAcceptsIff(mac: Mac, secret: Bytes, body: Bytes, header: Text)
    ensures VerifyGithub(mac, secret, body, header).Ok? <==> exists gap :: Spells(header, gap, mac(secret, body))
  {
    hide Trim, DecodeHex;
    if VerifyGithub(mac, secret, body, header).Ok? {
      var before, gap, after := TrimmedSpells(header);
      assert Spells(header, gap, mac(secret, body));
    }
    if gap :| Spells(header, gap, mac(secret, body)) {
      var before, hex, after :| IsSpelling(header, before, gap, hex, after) && DecodeHex(hex) == Some(mac(secret, body));
      SpellingTrims(header, before, gap, hex, after);
    }
  }

  /** A header that spells another hash is a mismatch; one that spells none is malformed. */
  lemma GithubRejectsFor(mac: Mac, secret: Bytes, body: Bytes, header: Text)
    ensures VerifyGithub(mac, secret, body, header) == Err(Mismatch) <==>
            exists gap, other :: Spells(header, gap, other) && other != mac(secret, body)
  {
    hide Trim, DecodeHex;
    if VerifyGithub(mac, secret, body, header) == Err(Mismatch) {
      var before, gap, after := TrimmedSpells(header);
      assert Spells(header, gap, DecodeHex(Trim(Trim(header)[|PREFIX|..])).value);
    }
    if gap, other :| Spells(header, gap, other) && other != mac(secret, body) {
      var before, hex, after :| IsSpelling(header, before, gap, hex, after) && DecodeHex(hex) == Some(other);
      SpellingTrims(header, before, gap, hex, after);
    }
  }

  ghost predicate Carries(header: Text, digest: Bytes) {
    PREFIX <= Trim(header) && DecodeHex(Trim(header)[|PREFIX|..]) == Some(digest)
  }

  lemma CarriedIsVerified(mac: Mac, secret: Bytes, input: Bytes, header: Text)
    requires Carries(header, mac(secret, input))
    ensures VerifyGithub(mac, secret, input, header).Ok?
    ensures DecodeHex(StripPrefixes(Trim(header))) == Some(mac(secret, input))
  {
  }

  lemma TrimKeepsFirst(t: Text)
    requires t != [] && !IsWhite(t[0])
    ensures Trim(t) != [] && Trim(t)[0] == t[0]
  {
    TrimEndKeepsFirst(t);
  }

  lemma {:induction false} TrimEndKeepsFirst(t: Text)
    requires t != [] && !IsWhite(t[0])
    ensures TrimEnd(t) != [] && TrimEnd(t)[0] == t[0]
  {
    if IsWhite(t[|t| - 1]) {
      TrimEndKeepsFirst(t[..|t| - 1]);
    }
  }

  lemma VerifiedIsCarried(mac: Mac, secret: Bytes, input: Bytes, header: Text)
    requires VerifyGithub(mac, secret, input, header).Ok? && DecodeHex(StripPrefixes(Trim(header))).Some?
    ensures Carries(header, mac(secret, input))
  {
    var h := Trim(header)[|PREFIX|..];
    if PREFIX <= h {
      TrimKeepsFirst(h);
    } else {
      HexHasNoWhite(h);
      TrimNothing(h);
    }
  }

  lemma CarriesIff(header: Text, digest: Bytes)
    ensures Carries(header, digest) <==> Spells(header, [], digest)
  {
    hide Trim;
    if Carries(header, digest) {
      var rest := Trim(header)[|PREFIX|..];
      HexHasNoWhite(rest);
      TrimOf([], rest, []);
      assert [] + rest + [] == rest;
      var before, gap, after := TrimmedSpells(header);
      assert IsSpelling(header, before, [], rest, after);
    }
    if Spells(header, [], digest) {
      var before, hex, after :| IsSpelling(header, before, [], hex, after) && DecodeHex(hex) == Some(digest);
      SpellingTrims(header, before, [], hex, after);
    }
  }

  lemma TimestampedIff(mac: Mac, secret: Bytes, body: Bytes, timestampHeader: Text, signatureHeader: Text, now: int, maxSkew: int, t: int)
    requires ParseI64(Trim(timestampHeader)) == Some(t) && AbsDiff(now, t) <= AbsDiff(maxSkew, 0)
    ensures var digest := mac(secret, Frame(t, body));
            var verdict := VerifyTimestamped(mac, secret, body, timestampHeader, signatureHeader, now, maxSkew);
            if Carries(signatureHeader, digest) then verdict == Ok(digest) else verdict.Err?
  {
    hide Frame, VerifyGithub, StripPrefixes, Trim;
    var input := Frame(t, body);
    if Carries(signatureHeader, mac(secret, input)) {
      CarriedIsVerified(mac, secret, input, signatureHeader);
    } else if VerifyGithub(mac, secret, input, signatureHeader).Ok? && DecodeHex(StripPrefixes(Trim(signatureHeader))).Some? {
      VerifiedIsCarried(mac, secret, input, signatureHeader);
    }
  }

  /**
    Exactly which headers are accepted: a timestamp within the window, and a signature header
    that spells the hash of timestamp and body without a gap. What is returned is that hash.
   */
  lemma AcceptedIff(mac: Mac, secret: Bytes, body: Bytes, timestampHeader: Text, signatureHeader: Text, now: int, maxSkew: int, digest: Bytes)
    ensures var window := if maxSkew >= 0 then maxSkew else -maxSkew;
            VerifyTimestamped(mac, secret, body, timestampHeader, signatureHeader, now, maxSkew) == Ok(digest) <==>
            exists t :: ParseI64(Trim(timestampHeader)) == Some(t)
                        && -window <= now - t <= window
                        && digest == mac(secret, Frame(t, body))
                        && Spells(signatureHeader, [], digest)
  {
    hide Frame, Carries, Spells, VerifyGithub, Trim, StripPrefixes, DecodeHex;
    var parsed := ParseI64(Trim(timestampHeader));
    if parsed.Some? && AbsDiff(now, parsed.value) <= AbsDiff(maxSkew, 0) {
      TimestampedIff(mac, secret, body, timestampHeader, signatureHeader, now, maxSkew, parsed.value);
      CarriesIff(signatureHeader, mac(secret, Frame(parsed.value, body)));
    }
  }

  /** Why a delivery is rejected: a timestamp that does not parse, one outside the window, or else the signature. */
  lemma RejectedFor(mac: Mac, secret: Bytes, body: Bytes, timestampHeader: Text, signatureHeader: Text, now: int, maxSkew: int)
    ensures var window := if maxSkew >= 0 then maxSkew else -maxSkew;
            var verdict := VerifyTimestamped(mac, secret, body, timestampHeader, signatureHeader, now, maxSkew);
            var parsed := ParseI64(Trim(timestampHeader));
            && (verdict == Err(MalformedTimestamp) <==> parsed == None)
            && (verdict == Err(Stale) <==> parsed.Some? && !(-window <= now - parsed.value <= window))
            && (verdict.Err? && verdict.error.Signature? <==>
                  && parsed.Some? && -window <= now - parsed.value <= window
                  && !Spells(signatureHeader, [], mac(secret, Frame(parsed.value, body))))
  {
    hide Frame, Carries, Spells, VerifyGithub, Trim, StripPrefixes, DecodeHex;
    var parsed := ParseI64(Trim(timestampHeader));
    if parsed.Some? && AbsDiff(now, parsed.value) <= AbsDiff(maxSkew, 0) {
      TimestampedIff(mac, secret, body, timestampHeader, signatureHeader, now, maxSkew, parsed.value);
      CarriesIff(signatureHeader, mac(secret, Frame(parsed.value, body)));
    }
  }

  /** White space directly behind the prefix. */
  predicate HasGap(header: Text) {
    |Trim(header)| > |PREFIX| && IsWhite(Trim(header)[|PREFIX|])
  }

  lemma VerifiedCarriesIff(mac: Mac, secret: Bytes, body: Bytes, header: Text)
    requires VerifyGithub(mac, secret, body, header).Ok?
    ensures Carries(header, mac(secret, body)) <==> !HasGap(header)
  {
    hide Trim;
    var rest := Trim(header)[|PREFIX|..];
    if HasGap(header) {
      assert HexValue(rest[0]).None?;
    } else {
      var before, after := TrimParts(header);
      assert Tight(rest);
      TrimOf([], rest, []);
      assert [] + rest + [] == rest;
    }
  }

  /**
    The two verifiers disagree on one point. Of what `verify_github` accepts for a fresh timestamp,
    `verify_timestamped` rejects exactly the headers with white space behind the prefix.
   */
  lemma GapIsRejectedIff(mac: Mac, secret: Bytes, body: Bytes, timestampHeader: Text, signatureHeader: Text, now: int, maxSkew: int, t: int)
    requires ParseI64(Trim(timestampHeader)) == Some(t) && AbsDiff(now, t) <= AbsDiff(maxSkew, 0)
    requires VerifyGithub(mac, secret, Frame(t, body), signatureHeader).Ok?
    ensures VerifyTimestamped(mac, secret, body, timestampHeader, signatureHeader, now, maxSkew).Err? <==> HasGap(signatureHeader)
  {
    hide Frame, Carries, VerifyGithub, HasGap, VerifyTimestamped;
    TimestampedIff(mac, secret, body, timestampHeader, signatureHeader, now, maxSkew, t);
    VerifiedCarriesIff(mac, secret, Frame(t, body), signatureHeader);
  }

  lemma SpaceIsAGap(hex: Text)
    requires AllHex(hex) && hex != []
    ensures var header := PREFIX + [32] + hex; IsSpelling(header, [], [32], hex, []) && HasGap(header)
  {
    hide Trim;
    var header := PREFIX + [32] + hex;
    HexHasNoWhite(hex);
    assert header == [] + header + [];
    TrimOf([], header, []);
    assert header[|PREFIX|] == 32;
  }

  lemma PrintedTrimsAndParses(t: int)
    requires IsI64(t)
    ensures ParseI64(Trim(PrintI64(t))) == Some(t)
  {
    hide Trim, ParseI64;
    PrintI64Chars(t);
    TrimNothing(PrintI64(t));
    ParsePrintI64(t);
  }

  /** With any hash, a space between the prefix and the hash that is due makes the difference. */
  lemma GapIsRejected(mac: Mac, secret: Bytes, body: Bytes, t: int)
    requires IsI64(t) && mac(secret, Frame(t, body)) != []
    ensures var header := PREFIX + [32] + EncodeHex(mac(secret, Frame(t, body)));
            && VerifyGithub(mac, secret, Frame(t, body), header).Ok?
            && VerifyTimestamped(mac, secret, body, PrintI64(t), header, t, 0).Err?
  {
    hide VerifyTimestamped, VerifyGithub, Frame, Trim, EncodeHex, DecodeHex, ParseI64, PrintI64, HasGap, IsSpelling;
    var digest := mac(secret, Frame(t, body));
    var hex := EncodeHex(digest);
    var header := PREFIX + [32] + hex;
    DecodeEncodeHex(digest);
    SpaceIsAGap(hex);
    assert Spells(header, [32], digest);
    GithubAcceptsIff(mac, secret, Frame(t, body), header);
    PrintedTrimsAndParses(t);
    GapIsRejectedIff(mac, secret, body, PrintI64(t), header, t, 0, t);
  }

  /**
    What the signer sends is accepted exactly if its timestamp is at most |max_skew| away, for
    all 64-bit values; otherwise it is stale.
   */
  lemma SignedIsAcceptedIffFresh(mac: Mac, secret: Bytes, body: Bytes, timestamp: int, now: int, maxSkew: int)
    requires IsI64(timestamp) && IsI64(now) && IsI64(maxSkew)
    ensures VerifyTimestamped(mac, secret, body, PrintI64(timestamp), SignTimestamped(mac, secret, timestamp, body), now, maxSkew)
            == var window := if maxSkew >= 0 then maxSkew else -maxSkew;
               if -window <= now - timestamp <= window then Ok(mac(secret, Frame(timestamp, body))) else Err(Stale)
  {
    var input := Frame(timestamp, body);
    var digest := mac(secret, input);
    var header := SignTimestamped(mac, secret, timestamp, body);
    PrintedTrimsAndParses(timestamp);
    TrimSigned(EncodeHex(digest));
    assert header[|PREFIX|..] == EncodeHex(digest);
    DecodeEncodeHex(digest);
    CarriedIsVerified(mac, secret, input, header);
  }
}
