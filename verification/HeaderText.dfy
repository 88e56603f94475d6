/** Text as header values carry it: white space, signed decimals, hex digits, separators. */
module HeaderText {
  import opened Basics
  import opened Decimal

  const I64_MIN: int := -0x8000_0000_0000_0000
  const I64_MAX: int := 0x7FFF_FFFF_FFFF_FFFF
  const MINUS: byte := 45
  const PLUS: byte := 43

  // ---- Trimming ----

  /** The Unicode property White_Space. */
  predicate IsWhite(c: int) {
    || 9 <= c <= 13 || c == 0x20 || c == 0x85 || c == 0xA0 || c == 0x1680 || 0x2000 <= c <= 0x200A
    || c == 0x2028 || c == 0x2029 || c == 0x202F || c == 0x205F || c == 0x3000
  }

  function TrimStart(t: Text): Text {
    if t != [] && IsWhite(t[0]) then TrimStart(t[1..]) else t
  }

  function TrimEnd(t: Text): Text {
    if t != [] && IsWhite(t[|t| - 1]) then TrimEnd(t[..|t| - 1]) else t
  }

  function Trim(t: Text): Text {
    TrimEnd(TrimStart(t))
  }

  ghost predicate NoWhite(t: Text) {
    forall i :: 0 <= i < |t| ==> !IsWhite(t[i])
  }

  lemma TrimNothing(t: Text)
    requires NoWhite(t)
    ensures Trim(t) == t
  {
  }

  ghost predicate AllWhite(t: Text) {
    forall i :: 0 <= i < |t| ==> IsWhite(t[i])
  }

  /** Empty, or neither beginning nor ending with white space. */
  predicate Tight(t: Text) {
    t == [] || (!IsWhite(t[0]) && !IsWhite(t[|t| - 1]))
  }

  lemma {:induction false} TrimStartParts(t: Text) returns (white: Text)
    ensures t == white + TrimStart(t) && AllWhite(white)
    ensures TrimStart(t) == [] || !IsWhite(TrimStart(t)[0])
  {
    white := [];
    if t != [] && IsWhite(t[0]) {
      white := TrimStartParts(t[1..]);
      white := [t[0]] + white;
      assert t == [t[0]] + t[1..];
    }
  }

  lemma {:induction false} TrimEndParts(t: Text) returns (white: Text)
    ensures t == TrimEnd(t) + white && AllWhite(white)
    ensures TrimEnd(t) == [] || !IsWhite(TrimEnd(t)[|TrimEnd(t)| - 1])
  {
    hide IsWhite;
    if t != [] && IsWhite(t[|t| - 1]) {
      var init, last := t[..|t| - 1], t[|t| - 1];
      white := TrimEndParts(init);
      assert t == init + [last];
      assert t == TrimEnd(t) + (white + [last]);
      white := white + [last];
    } else {
      white := [];
    }
  }

  /** Trimming takes white space off both ends and nothing else. */
  lemma TrimParts(t: Text) returns (before: Text, after: Text)
    ensures t == before + Trim(t) + after && AllWhite(before) && AllWhite(after) && Tight(Trim(t))
  {
    hide TrimStart, TrimEnd;
    before := TrimStartParts(t);
    after := TrimEndParts(TrimStart(t));
    assert t == before + (Trim(t) + after);
  }

  lemma {:induction false} TrimStartOf(before: Text, t: Text)
    requires AllWhite(before) && (t == [] || !IsWhite(t[0]))
    ensures TrimStart(before + t) == t
  {
    if before == [] {
      assert before + t == t;
    } else {
      assert (before + t)[1..] == before[1..] + t;
      TrimStartOf(before[1..], t);
    }
  }

  lemma {:induction false} TrimEndOf(t: Text, after: Text)
    requires AllWhite(after) && (t == [] || !IsWhite(t[|t| - 1]))
    ensures TrimEnd(t + after) == t
  {
    if after == [] {
      assert t + after == t;
    } else {
      var n := |after| - 1;
      assert (t + after)[..|t| + n] == t + after[..n];
      TrimEndOf(t, after[..n]);
    }
  }

  lemma TrimOf(before: Text, t: Text, after: Text)
    requires AllWhite(before) && AllWhite(after) && Tight(t)
    ensures Trim(before + t + after) == t
  {
    hide TrimStart, TrimEnd;
    if t == [] {
      assert before + t + after == (before + after) + t;
      TrimStartOf(before + after, t);
      TrimEndOf(t, t);
      assert t + t == t;
    } else {
      assert before + t + after == before + (t + after);
      TrimStartOf(before, t + after);
      TrimEndOf(t, after);
    }
  }

  // ---- Signed decimals ----

  ghost predicate IsI64(n: int) {
    I64_MIN <= n <= I64_MAX
  }

  function PrintI64(n: int): Bytes {
    if n < 0 then [MINUS] + Digits(-n) else Digits(n)
  }

  /** An optional sign, then one or more digits, within range. */
  function ParseI64(t: Text): Option<int> {
    var negative := t != [] && t[0] == MINUS;
    var digits := if t != [] && (t[0] == MINUS || t[0] == PLUS) then t[1..] else t;
    if digits == [] || !AllDigits(digits) then None
    else
      var magnitude: int := Value(digits);
      var n := if negative then -magnitude else magnitude;
      if I64_MIN <= n <= I64_MAX then Some(n) else None
  }

  lemma ParsePrintI64(n: int)
    requires IsI64(n)
    ensures ParseI64(PrintI64(n)) == Some(n)
  {
    if n < 0 {
      ValueOfDigits(-n);
      assert PrintI64(n)[1..] == Digits(-n);
    } else {
      ValueOfDigits(n);
      assert IsDigit(PrintI64(n)[0]);
    }
  }

  /** One or more digits behind at most one sign, `+` or `-`, and what they come to. */
  ghost predicate IsNumeral(t: Text, sign: Text, digits: Text, n: int) {
    && t == sign + digits
    && (sign == [] || sign == [43] || sign == [45])
    && digits != [] && AllDigits(digits)
    && var magnitude: int := Value(digits);
    n == if sign == [45] then -magnitude else magnitude
  }

  lemma NumeralParses(t: Text, sign: Text, digits: Text, n: int)
    requires IsNumeral(t, sign, digits, n) && IsI64(n)
    ensures ParseI64(t) == Some(n)
  {
    hide Value;
    if sign == [] {
      assert t == digits && IsDigit(t[0]);
    } else {
      assert t[1..] == digits && t[0] == sign[0];
    }
  }

  lemma ParsedIsNumeral(t: Text) returns (sign: Text, digits: Text)
    requires ParseI64(t).Some?
    ensures IsNumeral(t, sign, digits, ParseI64(t).value)
  {
    hide Value;
    if t[0] == MINUS || t[0] == PLUS {
      sign, digits := [t[0]], t[1..];
    } else {
      sign, digits := [], t;
    }
    assert t == sign + digits;
  }

  /** What is read as a number: the numerals whose value is in range. */
  lemma ParsesI64Iff(t: Text, n: int)
    ensures ParseI64(t) == Some(n) <==>
            -0x8000_0000_0000_0000 <= n <= 0x7FFF_FFFF_FFFF_FFFF && exists sign, digits :: IsNumeral(t, sign, digits, n)
  {
    if ParseI64(t) == Some(n) {
      var sign, digits := ParsedIsNumeral(t);
    }
    if sign, digits :| IsNumeral(t, sign, digits, n) && IsI64(n) {
      NumeralParses(t, sign, digits, n);
    }
  }

  predicate IsDecimalChar(c: int) {
    IsDigit(c) || c == MINUS
  }

  lemma PrintI64Chars(n: int)
    ensures forall i :: 0 <= i < |PrintI64(n)| ==> IsDecimalChar(PrintI64(n)[i])
  {
  }

  // ---- Hex ----

  function HexLower(n: nat): byte
    requires n < 16
  {
    if n < 10 then 48 + n else 87 + n
  }

  predicate AllHex(t: Text) {
    forall i :: 0 <= i < |t| ==> HexValue(t[i]).Some?
  }

  function EncodeHex(b: Bytes): (r: Bytes)
    ensures |r| == 2 * |b| && AllHex(r)
    ensures forall i :: 0 <= i < |r| ==> 48 <= r[i] <= 57 || 97 <= r[i] <= 102
  {
    if b == [] then [] else [HexLower(b[0] / 16), HexLower(b[0] % 16)] + EncodeHex(b[1..])
  }

  /** Pairs of hex digits of either case; an odd length or any other character is an error. */
  function DecodeHex(t: Text): (r: Option<Bytes>)
    ensures r.Some? <==> |t| % 2 == 0 && AllHex(t)
  {
    if t == [] then Some([])
    else if |t| == 1 || HexValue(t[0]).None? || HexValue(t[1]).None? then None
    else
      var rest := DecodeHex(t[2..]);
      assert forall i :: 0 <= i < |t| - 2 ==> t[2..][i] == t[i + 2];
      if rest.None? then None
      else
        var b: byte := (16 * HexValue(t[0]).value + HexValue(t[1]).value) % 256;
        Some([b] + rest.value)
  }

  lemma HexDigits(b: byte)
    ensures HexValue(HexLower(b / 16)) == Some(b / 16) && HexValue(HexLower(b % 16)) == Some(b % 16)
    ensures (16 * (b / 16) + b % 16) % 256 == b
  {
  }

  lemma {:induction false} DecodeEncodeHex(b: Bytes)
    ensures DecodeHex(EncodeHex(b)) == Some(b)
  {
    if b != [] {
      hide HexLower, HexValue, AllHex;
      DecodeEncodeHex(b[1..]);
      HexDigits(b[0]);
      var e := EncodeHex(b);
      assert e[0] == HexLower(b[0] / 16) && e[1] == HexLower(b[0] % 16);
      assert e[2..] == EncodeHex(b[1..]);
      assert b == [b[0]] + b[1..];
    }
  }

  lemma HexHasNoWhite(t: Text)
    requires AllHex(t)
    ensures NoWhite(t)
  {
  }

  // ---- Separators ----

  ghost predicate Lacks(t: Text, c: int) {
    forall i :: 0 <= i < |t| ==> t[i] != c
  }

  /** Index of the first `c`, or the length. */
  function IndexOf(t: Text, c: int): (r: nat)
    ensures r <= |t| && (r < |t| ==> t[r] == c)
    ensures forall i :: 0 <= i < r ==> t[i] != c
  {
    if t == [] || t[0] == c then 0 else IndexOf(t[1..], c) + 1
  }

  lemma IndexOfIs(t: Text, c: int, r: nat)
    requires r <= |t| && (r < |t| ==> t[r] == c)
    requires forall i :: 0 <= i < r ==> t[i] != c
    ensures IndexOf(t, c) == r
  {
  }

  function SplitOnce(t: Text, c: int): Option<(Text, Text)> {
    var i := IndexOf(t, c);
    if i < |t| then Some((t[..i], t[i + 1..])) else None
  }

  /** The pieces between separators: one more than there are separators. */
  function Split(t: Text, c: int): (r: seq<Text>)
    ensures r != []
    decreases |t|
  {
    var i := IndexOf(t, c);
    if i < |t| then [t[..i]] + Split(t[i + 1..], c) else [t]
  }

  lemma SplitOnceAt(a: Text, c: int, b: Text)
    requires Lacks(a, c)
    ensures SplitOnce(a + [c] + b, c) == Some((a, b))
  {
    hide IndexOf;
    var t := a + [c] + b;
    IndexOfIs(t, c, |a|);
    assert t[..|a|] == a && t[|a| + 1..] == b;
  }

  lemma SplitCons(a: Text, c: int, b: Text)
    requires Lacks(a, c)
    ensures Split(a + [c] + b, c) == [a] + Split(b, c)
  {
    hide IndexOf;
    var t := a + [c] + b;
    IndexOfIs(t, c, |a|);
    assert t[..|a|] == a && t[|a| + 1..] == b;
  }

  lemma SplitNone(a: Text, c: int)
    requires Lacks(a, c)
    ensures Split(a, c) == [a]
  {
  }
}
