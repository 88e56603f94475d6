/** Decimal notation over ASCII, and the order of byte strings. Text is a sequence of code points. */
module Decimal {
  import opened Basics

  type Text = seq<int>

  const ZERO: byte := 48

  predicate IsDigit(c: int) {
    ZERO <= c <= 57
  }

  predicate AllDigits(t: Text) {
    forall i :: 0 <= i < |t| ==> IsDigit(t[i])
  }

  function Value(t: Text): (v: nat)
    requires AllDigits(t)
  {
    if t == [] then 0 else Value(t[..|t| - 1]) * 10 + (t[|t| - 1] - ZERO)
  }

  function Digit(n: nat): byte {
    ZERO + n % 10
  }

  /** The shortest notation of a natural number. */
  function Digits(n: nat): (r: Bytes)
    ensures r != [] && AllDigits(r)
  {
    if n < 10 then [Digit(n)] else Digits(n / 10) + [Digit(n)]
  }

  /** The last `w` digits, with leading zeros. */
  function Pad(w: nat, n: nat): (r: Bytes)
    ensures |r| == w && AllDigits(r)
  {
    if w == 0 then [] else Pad(w - 1, n / 10) + [Digit(n)]
  }

  function Pow10(w: nat): (r: nat)
    ensures r >= 1
  {
    if w == 0 then 1 else 10 * Pow10(w - 1)
  }

  lemma ValueSnoc(t: Text, c: int)
    requires AllDigits(t) && IsDigit(c)
    ensures AllDigits(t + [c]) && Value(t + [c]) == Value(t) * 10 + (c - ZERO)
  {
  }

  lemma {:induction false} ValueOfDigits(n: nat)
    ensures Value(Digits(n)) == n
  {
    if n < 10 {
      assert [Digit(n)][..0] == [];
    } else {
      ValueOfDigits(n / 10);
      ValueSnoc(Digits(n / 10), Digit(n));
    }
  }

  lemma {:induction false} ValueOfPad(w: nat, n: nat)
    requires n < Pow10(w)
    ensures Value(Pad(w, n)) == n
  {
    if w > 0 {
      ValueOfPad(w - 1, n / 10);
      ValueSnoc(Pad(w - 1, n / 10), Digit(n));
    }
  }

  /** Fixed-width digits are determined by their value. */
  lemma {:induction false} PadOfValue(t: Text)
    requires AllDigits(t)
    ensures Value(t) < Pow10(|t|) && Pad(|t|, Value(t)) == t
  {
    if t != [] {
      var init, c := t[..|t| - 1], t[|t| - 1];
      PadOfValue(init);
      assert Value(t) / 10 == Value(init) && Digit(Value(t)) == c;
      assert t == init + [c];
    }
  }

  lemma {:induction false} DigitsArePad(w: nat, n: nat)
    requires w >= 1 && n < Pow10(w) && (w == 1 || Pow10(w - 1) <= n)
    ensures Digits(n) == Pad(w, n)
  {
    if w > 1 {
      assert Pow10(w - 1) == 10 * Pow10(w - 2);
      DigitsArePad(w - 1, n / 10);
    } else {
      assert Pow10(1) == 10 * Pow10(0);
      assert Pad(0, n / 10) == [];
    }
  }

  lemma {:induction false} ValueGrows(t: Text, n: nat)
    requires AllDigits(t) && n <= |t|
    ensures Value(t[..n]) <= Value(t)
    decreases |t|
  {
    if n < |t| {
      var init := t[..|t| - 1];
      ValueGrows(init, n);
      assert init[..n] == t[..n];
    } else {
      assert t[..n] == t;
    }
  }

  // ---- Lexicographic order ----

  predicate LexLess(a: Text, b: Text) {
    b != [] && (a == [] || a[0] < b[0] || (a[0] == b[0] && LexLess(a[1..], b[1..])))
  }

  lemma {:induction false} LexConcat(a: Text, c: Text, b: Text, d: Text)
    requires |a| == |b|
    ensures LexLess(a + c, b + d) <==> LexLess(a, b) || (a == b && LexLess(c, d))
  {
    if a == [] {
      assert a + c == c && b + d == d;
    } else {
      assert (a + c)[1..] == a[1..] + c && (b + d)[1..] == b[1..] + d;
      assert a == [a[0]] + a[1..] && b == [b[0]] + b[1..];
      LexConcat(a[1..], c, b[1..], d);
    }
  }

  lemma LexSingle(x: int, y: int)
    ensures LexLess([x], [y]) <==> x < y
  {
  }

  lemma {:induction false} PadOrder(w: nat, a: nat, b: nat)
    requires a < Pow10(w) && b < Pow10(w)
    ensures LexLess(Pad(w, a), Pad(w, b)) <==> a < b
    ensures Pad(w, a) == Pad(w, b) <==> a == b
  {
    if w > 0 {
      PadOrder(w - 1, a / 10, b / 10);
      LexConcat(Pad(w - 1, a / 10), [Digit(a)], Pad(w - 1, b / 10), [Digit(b)]);
      LexSingle(Digit(a), Digit(b));
      ValueOfPad(w, a);
      ValueOfPad(w, b);
    }
  }
}
