/** The `Stripe-Signature` header: parsing its list of pairs, and verifying a delivery. */
module StripeWebhooks {
  import opened Basics
  import opened Decimal
  import opened HeaderText
  import opened Webhooks

  const COMMA: byte := 44
  const EQUALS: byte := 61
  const KEY_T: Bytes := [116]        // t
  const KEY_V1: Bytes := [118, 49]   // v1

  datatype StripeError = MalformedStripeHeader | TimestampOutOfTolerance | NoMatch

  datatype ParsedHeader = ParsedHeader(timestamp: int, signatures: seq<Bytes>)

  // ---- One pair ----

  datatype Field = Malformed | Timestamp(seconds: int) | V1(bytes: Bytes) | Ignored

  /** What one piece of the list says. */
  function ReadPiece(piece: Text): Field {
    var pair := SplitOnce(piece, EQUALS);
    if pair.None? then Malformed
    else
      var (key, value) := pair.value;
      if Trim(key) == KEY_T then
        var t := ParseI64(Trim(value));
        if t.None? then Malformed else Timestamp(t.value)
      else if Trim(key) == KEY_V1 then
        var bytes := DecodeHex(Trim(value));
        if bytes.None? then Malformed else V1(bytes.value)
      else Ignored
  }

  /** A piece without `=` is malformed; otherwise its key, white space aside, decides how it is read. */
  lemma PieceByKey(key: Text, value: Text)
    requires Lacks(key, 61)
    ensures ReadPiece(key) == Malformed
    ensures var piece := key + [61] + value;
            && (Trim(key) == [116] ==>
                  ReadPiece(piece) == if ParseI64(Trim(value)).Some? then Timestamp(ParseI64(Trim(value)).value) else Malformed)
            && (Trim(key) == [118, 49] ==>
                  ReadPiece(piece) == if DecodeHex(Trim(value)).Some? then V1(DecodeHex(Trim(value)).value) else Malformed)
            && (Trim(key) != [116] && Trim(key) != [118, 49] ==> ReadPiece(piece) == Ignored)
  {
    hide Trim, ParseI64, DecodeHex;
    SplitOnceAt(key, EQUALS, value);
    assert SplitOnce(key, EQUALS).None?;
    assert |KEY_T| != |KEY_V1|;
  }

  // ---- The header ----

  predicate AllRead(pieces: seq<Text>) {
    forall i :: 0 <= i < |pieces| ==> !ReadPiece(pieces[i]).Malformed?
  }

  /** The last `t` wins. */
  function LastTimestamp(pieces: seq<Text>): Option<int> {
    if pieces == [] then None
    else
      var last := ReadPiece(pieces[|pieces| - 1]);
      if last.Timestamp? then Some(last.seconds) else LastTimestamp(pieces[..|pieces| - 1])
  }

  /** All `v1` signatures, in order. */
  function Signatures(pieces: seq<Text>): seq<Bytes> {
    if pieces == [] then []
    else
      var last := ReadPiece(pieces[|pieces| - 1]);
      Signatures(pieces[..|pieces| - 1]) + (if last.V1? then [last.bytes] else [])
  }

  function ParseHeader(header: Text): Option<ParsedHeader> {
    var pieces := Split(header, COMMA);
    if AllRead(pieces) && LastTimestamp(pieces).Some? && Signatures(pieces) != []
    then Some(ParsedHeader(LastTimestamp(pieces).value, Signatures(pieces)))
    else None
  }

  method ParseSignatureHeader(header: Text) returns (r: Option<ParsedHeader>)
    ensures r == ParseHeader(header)
  {
    hide Split, SplitOnce, Trim, ParseI64, DecodeHex;
    var timestamp: Option<int> := None;
    var signatures: seq<Bytes> := [];
    var pieces := Split(header, COMMA);
    for i := 0 to |pieces|
      invariant AllRead(pieces[..i])
      invariant timestamp == LastTimestamp(pieces[..i])
      invariant signatures == Signatures(pieces[..i])
    {
      assert pieces[..i + 1][..i] == pieces[..i];
      ghost var field := ReadPiece(pieces[i]);
      var pair := SplitOnce(pieces[i], EQUALS);
      if pair.None? {
        assert field.Malformed?;
        return None;
      }
      var (key, value) := pair.value;
      if Trim(key) == KEY_T {
        timestamp := ParseI64(Trim(value));
        if timestamp.None? {
          assert field.Malformed?;
          return None;
        }
      } else if Trim(key) == KEY_V1 {
        var bytes := DecodeHex(Trim(value));
        if bytes.None? {
          assert field.Malformed?;
          return None;
        }
        signatures := signatures + [bytes.value];
      }
    }
    assert pieces[..|pieces|] == pieces;
    if timestamp.None? || signatures == [] {
      return None;
    }
    return Some(ParsedHeader(timestamp.value, signatures));
  }

  /** Piece `i` is the last one that gives a timestamp, and it gives `t`. */
  predicate DecidesTimestamp(pieces: seq<Text>, i: nat, t: int) {
    && i < |pieces|
    && ReadPiece(pieces[i]) == Timestamp(t)
    && forall j :: i < j < |pieces| ==> !ReadPiece(pieces[j]).Timestamp?
  }

  lemma {:induction false} TimestampIff(pieces: seq<Text>, t: int)
    ensures LastTimestamp(pieces) == Some(t) <==> exists i :: DecidesTimestamp(pieces, i, t)
  {
    hide ReadPiece;
    if pieces != [] {
      var n := |pieces| - 1;
      var init := pieces[..n];
      TimestampIff(init, t);
      if ReadPiece(pieces[n]).Timestamp? {
        assert ReadPiece(pieces[n]) == Timestamp(t) ==> DecidesTimestamp(pieces, n, t);
      } else {
        assert forall i :: DecidesTimestamp(init, i, t) <==> i != n && DecidesTimestamp(pieces, i, t);
      }
    }
  }

  lemma {:induction false} SignaturesIff(pieces: seq<Text>, b: Bytes)
    ensures b in Signatures(pieces) <==> exists i :: 0 <= i < |pieces| && ReadPiece(pieces[i]) == V1(b)
  {
    hide ReadPiece;
    if pieces != [] {
      var n := |pieces| - 1;
      var init := pieces[..n];
      SignaturesIff(init, b);
      if i :| 0 <= i < n && ReadPiece(init[i]) == V1(b) {
        assert ReadPiece(pieces[i]) == V1(b);
      }
      if i :| 0 <= i < n && ReadPiece(pieces[i]) == V1(b) {
        assert ReadPiece(init[i]) == V1(b);
      }
    }
  }

  // ---- Verifying ----

  function ExpectedSignature(mac: Mac, secret: Bytes, timestamp: int, body: Bytes): Bytes {
    mac(secret, Frame(timestamp, body))
  }

  function Tolerance(seconds: int): nat {
    if seconds > 0 then seconds else 0
  }

  function VerifySignature(mac: Mac, payload: Bytes, header: Text, secret: Bytes, now: int, tolerance: int): Result<int, StripeError> {
    var parsed := ParseHeader(header);
    if parsed.None? then Err(MalformedStripeHeader)
    else if AbsDiff(now, parsed.value.timestamp) > Tolerance(tolerance) then Err(TimestampOutOfTolerance)
    else if ExpectedSignature(mac, secret, parsed.value.timestamp, payload) in parsed.value.signatures then Ok(parsed.value.timestamp)
    else Err(NoMatch)
  }

  /**
    Exactly which headers are accepted, piece by piece: none is malformed, the last `t` is within
    the tolerance, and some `v1`, in whatever place, is the hash of that timestamp and the payload.
   */
  lemma AcceptedIff(mac: Mac, payload: Bytes, header: Text, secret: Bytes, now: int, tolerance: int, t: int)
    ensures var pieces := Split(header, COMMA);
            VerifySignature(mac, payload, header, secret, now, tolerance) == Ok(t) <==>
            && AllRead(pieces)
            && (exists i :: DecidesTimestamp(pieces, i, t))
            && (now == t || (tolerance > 0 && -tolerance <= now - t <= tolerance))
            && (exists i :: 0 <= i < |pieces| && ReadPiece(pieces[i]) == V1(mac(secret, Frame(t, payload))))
  {
    hide ReadPiece, Split, DecidesTimestamp, Frame;
    var pieces := Split(header, COMMA);
    TimestampIff(pieces, t);
    SignaturesIff(pieces, mac(secret, Frame(t, payload)));
  }

  /** Why a delivery is rejected: a header that cannot be read, its timestamp, or else no match among its hashes. */
  lemma RejectedFor(mac: Mac, payload: Bytes, header: Text, secret: Bytes, now: int, tolerance: int)
    ensures var pieces := Split(header, COMMA);
            var verdict := VerifySignature(mac, payload, header, secret, now, tolerance);
            var readable := && AllRead(pieces)
                            && (exists i, t :: DecidesTimestamp(pieces, i, t))
                            && (exists i :: 0 <= i < |pieces| && ReadPiece(pieces[i]).V1?);
            && (verdict == Err(MalformedStripeHeader) <==> !readable)
            && (verdict == Err(TimestampOutOfTolerance) <==>
                  readable && exists i, t :: DecidesTimestamp(pieces, i, t) && !(now == t || (tolerance > 0 && -tolerance <= now - t <= tolerance)))
  {
    hide ReadPiece, Split, DecidesTimestamp, Frame;
    var pieces := Split(header, COMMA);
    AnyTimestamp(pieces);
    AnySignature(pieces);
  }

  lemma AnyTimestamp(pieces: seq<Text>)
    ensures LastTimestamp(pieces).Some? <==> exists i, t :: DecidesTimestamp(pieces, i, t)
    ensures forall i, t :: DecidesTimestamp(pieces, i, t) ==> LastTimestamp(pieces) == Some(t)
  {
    hide ReadPiece, DecidesTimestamp;
    if LastTimestamp(pieces).Some? {
      TimestampIff(pieces, LastTimestamp(pieces).value);
    }
    forall i, t | DecidesTimestamp(pieces, i, t)
      ensures LastTimestamp(pieces) == Some(t)
    {
      TimestampIff(pieces, t);
    }
  }

  lemma AnySignature(pieces: seq<Text>)
    ensures Signatures(pieces) != [] <==> exists i :: 0 <= i < |pieces| && ReadPiece(pieces[i]).V1?
  {
    hide ReadPiece;
    if Signatures(pieces) != [] {
      assert Signatures(pieces)[0] in Signatures(pieces);
      SignaturesIff(pieces, Signatures(pieces)[0]);
    }
    if i :| 0 <= i < |pieces| && ReadPiece(pieces[i]).V1? {
      SignaturesIff(pieces, ReadPiece(pieces[i]).bytes);
    }
  }

  /** The header a delivery is sent with: `t=<timestamp>,v1=<hex>`. */
  function SignedHeader(mac: Mac, secret: Bytes, timestamp: int, body: Bytes): Bytes {
    KEY_T + [EQUALS] + PrintI64(timestamp) + [COMMA] + (KEY_V1 + [EQUALS] + EncodeHex(ExpectedSignature(mac, secret, timestamp, body)))
  }

  lemma ReadTimestampPiece(timestamp: int)
    requires IsI64(timestamp)
    ensures var t := KEY_T + [EQUALS] + PrintI64(timestamp); Lacks(t, COMMA) && ReadPiece(t) == Timestamp(timestamp)
  {
    hide SplitOnce, Trim, ParseI64, DecodeHex, PrintI64;
    var number := PrintI64(timestamp);
    PrintI64Chars(timestamp);
    SplitOnceAt(KEY_T, EQUALS, number);
    TrimNothing(KEY_T);
    TrimNothing(number);
    ParsePrintI64(timestamp);
  }

  lemma ReadSignaturePiece(digest: Bytes)
    ensures var v := KEY_V1 + [EQUALS] + EncodeHex(digest); Lacks(v, COMMA) && ReadPiece(v) == V1(digest)
  {
    hide SplitOnce, Trim, ParseI64, DecodeHex, EncodeHex;
    var hex := EncodeHex(digest);
    SplitOnceAt(KEY_V1, EQUALS, hex);
    TrimNothing(KEY_V1);
    HexHasNoWhite(hex);
    TrimNothing(hex);
    DecodeEncodeHex(digest);
    assert forall i :: 0 <= i < |hex| ==> HexValue(hex[i]).Some?;
  }

  lemma ReadTwoPieces(pieces: seq<Text>, timestamp: int, digest: Bytes)
    requires |pieces| == 2 && ReadPiece(pieces[0]) == Timestamp(timestamp) && ReadPiece(pieces[1]) == V1(digest)
    ensures AllRead(pieces) && LastTimestamp(pieces) == Some(timestamp) && Signatures(pieces) == [digest]
  {
    hide ReadPiece;
    var first := pieces[..1];
    assert first[..0] == [];
    assert Signatures(first) == [] && LastTimestamp(first) == Some(timestamp);
  }

  lemma SignedParses(timestamp: int, digest: Bytes)
    requires IsI64(timestamp)
    ensures ParseHeader(KEY_T + [EQUALS] + PrintI64(timestamp) + [COMMA] + (KEY_V1 + [EQUALS] + EncodeHex(digest)))
            == Some(ParsedHeader(timestamp, [digest]))
  {
    hide ReadPiece, Split, PrintI64, EncodeHex, AllRead, LastTimestamp, Signatures;
    var t, v := KEY_T + [EQUALS] + PrintI64(timestamp), KEY_V1 + [EQUALS] + EncodeHex(digest);
    ReadTimestampPiece(timestamp);
    ReadSignaturePiece(digest);
    SplitCons(t, COMMA, v);
    SplitNone(v, COMMA);
    var pieces: seq<Text> := Split(t + [COMMA] + v, COMMA);
    ReadTwoPieces(pieces, timestamp, digest);
  }

  /** A delivery is accepted exactly if its timestamp is within max(tolerance, 0), for all 64-bit values. */
  lemma SignedIsAcceptedIffFresh(mac: Mac, secret: Bytes, body: Bytes, timestamp: int, now: int, tolerance: int)
    requires IsI64(timestamp) && IsI64(now) && IsI64(tolerance)
    ensures VerifySignature(mac, body, SignedHeader(mac, secret, timestamp, body), secret, now, tolerance)
            == if now == timestamp || (tolerance > 0 && -tolerance <= now - timestamp <= tolerance)
               then Ok(timestamp) else Err(TimestampOutOfTolerance)
  {
    SignedParses(timestamp, ExpectedSignature(mac, secret, timestamp, body));
  }
}
