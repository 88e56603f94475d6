/** A contract version: a calendar date, parsed strictly, printed in one spelling, and ordered. */
module ApiVersion {
  import opened Basics
  import opened Decimal

  const U16_MAX: nat := 65535
  const U8_MAX: nat := 255
  const DASH: byte := 45

  datatype Version = Version(year: nat, month: nat, day: nat)

  datatype ParseError = Malformed | NotACalendarDate

  predicate IsLeap(year: nat) {
    year % 4 == 0 && (year % 100 != 0 || year % 400 == 0)
  }

  function DaysInMonth(year: nat, month: nat): nat {
    if month in {1, 3, 5, 7, 8, 10, 12} then 31
    else if month in {4, 6, 9, 11} then 30
    else if month == 2 then (if IsLeap(year) then 29 else 28)
    else 0
  }

  function FromYmd(year: nat, month: nat, day: nat): Option<Version> {
    if month == 0 || month > 12 || day == 0 then None
    else if day > DaysInMonth(year, month) then None
    else Some(Version(year, month, day))
  }

  /** A value the type can hold: only `from_ymd` builds one, and its fields are u16, u8, u8. */
  predicate Exists(v: Version) {
    v.year <= U16_MAX && 1 <= v.month <= 12 && 1 <= v.day <= DaysInMonth(v.year, v.month)
  }

  /** The derived order: fields compared in the order of declaration. */
  predicate Less(a: Version, b: Version) {
    || a.year < b.year
    || (a.year == b.year && a.month < b.month)
    || (a.year == b.year && a.month == b.month && a.day < b.day)
  }

  predicate AtMost(a: Version, b: Version) {
    a == b || Less(a, b)
  }

  // ---- Parsing and printing ----

  /** The digits as a u16: all of them digits, and no overflow. */
  function DigitsValue(t: Text): Option<nat> {
    if AllDigits(t) && Value(t) <= U16_MAX then Some(Value(t)) else None
  }

  method ParseDigits(t: Text) returns (r: Option<nat>)
    ensures r == DigitsValue(t)
  {
    var value: nat := 0;
    for i := 0 to |t|
      invariant AllDigits(t[..i]) && value == Value(t[..i]) <= U16_MAX
    {
      if !(48 <= t[i] <= 57) {
        return None;
      }
      assert t[..i + 1] == t[..i] + [t[i]];
      ValueSnoc(t[..i], t[i]);
      var scaled := value * 10;
      if scaled > U16_MAX || scaled + (t[i] - 48) > U16_MAX {
        if AllDigits(t) {
          ValueGrows(t, i + 1);
        }
        return None;
      }
      value := scaled + (t[i] - 48);
    }
    assert t[..|t|] == t;
    return Some(value);
  }

  function Parse(raw: Text): Result<Version, ParseError> {
    if |raw| != 10 || raw[4] != DASH || raw[7] != DASH then Err(Malformed)
    else
      var year, month, day := DigitsValue(raw[0..4]), DigitsValue(raw[5..7]), DigitsValue(raw[8..10]);
      if year.None? || month.None? || day.None? then Err(Malformed)
      else if month.value > U8_MAX || day.value > U8_MAX then Err(NotACalendarDate)
      else
        var v := FromYmd(year.value, month.value, day.value);
        if v.None? then Err(NotACalendarDate) else Ok(v.value)
  }

  method FromStr(raw: Text) returns (r: Result<Version, ParseError>)
    ensures r == Parse(raw)
    ensures r.Ok? ==> Exists(r.value) && Print(r.value) == raw
  {
    if |raw| != 10 || raw[4] != 45 || raw[7] != 45 {
      return Err(Malformed);
    }
    var year := ParseDigits(raw[0..4]);
    var month := ParseDigits(raw[5..7]);
    var day := ParseDigits(raw[8..10]);
    if year.None? || month.None? || day.None? {
      return Err(Malformed);
    }
    if month.value > U8_MAX || day.value > U8_MAX {
      return Err(NotACalendarDate);
    }
    var v := FromYmd(year.value, month.value, day.value);
    if v.None? {
      return Err(NotACalendarDate);
    }
    ParsedPrintsBack(raw);
    return Ok(v.value);
  }

  /** `{:04}`: at least four digits. */
  function PrintYear(year: nat): Bytes {
    if year < 10000 then Pad(4, year) else Digits(year)
  }

  function Print(v: Version): Bytes {
    PrintYear(v.year) + [DASH] + Pad(2, v.month) + [DASH] + Pad(2, v.day)
  }

  lemma Powers()
    ensures Pow10(2) == 100 && Pow10(4) == 10000 && Pow10(5) == 100000
  {
    assert Pow10(1) == 10;
    assert Pow10(2) == 100;
    assert Pow10(3) == 1000;
  }

  /** Any spelling that parses is the one spelling its version prints to. */
  lemma ParsedPrintsBack(raw: Text)
    requires Parse(raw).Ok?
    ensures Exists(Parse(raw).value) && Print(Parse(raw).value) == raw
  {
    Powers();
    PadOfValue(raw[0..4]);
    PadOfValue(raw[5..7]);
    PadOfValue(raw[8..10]);
    assert raw == raw[0..4] + [raw[4]] + raw[5..7] + [raw[7]] + raw[8..10];
  }

  lemma PartsOfPrint(v: Version)
    requires v.year < 10000
    ensures var t := Print(v);
            && |t| == 10 && t[4] == DASH && t[7] == DASH
            && t[0..4] == Pad(4, v.year) && t[5..7] == Pad(2, v.month) && t[8..10] == Pad(2, v.day)
  {
    hide Pad;
    var y, m, d := Pad(4, v.year), Pad(2, v.month), Pad(2, v.day);
    var t := y + [DASH] + m + [DASH] + d;
    assert t == Print(v);
    assert t[0..4] == y;
    assert t[5..7] == m;
    assert t[8..10] == d;
  }

  lemma DigitsValueOfPad(w: nat, n: nat)
    requires n < Pow10(w) && n <= U16_MAX
    ensures DigitsValue(Pad(w, n)) == Some(n)
  {
  }

  lemma PrintedParses(v: Version)
    requires Exists(v) && v.year <= 9999
    ensures Parse(Print(v)) == Ok(v)
  {
    hide Print, DigitsValue, Pad, Pow10;
    Powers();
    PartsOfPrint(v);
    DigitsValueOfPad(4, v.year);
    DigitsValueOfPad(2, v.month);
    DigitsValueOfPad(2, v.day);
  }

  /** Printing and parsing give the version back exactly up to year 9999; later years print five digits. */
  lemma PrintedParsesIff(v: Version)
    requires Exists(v)
    ensures Parse(Print(v)) == Ok(v) <==> v.year <= 9999
    ensures v.year > 9999 ==> Parse(Print(v)) == Err(Malformed)
  {
    if v.year <= 9999 {
      PrintedParses(v);
    } else {
      Powers();
      DigitsArePad(5, v.year);
      assert |Print(v)| == 11;
    }
  }

  // ---- The order is chronological ----

  function YearLength(year: nat): nat {
    if IsLeap(year) then 366 else 365
  }

  function DaysBeforeYear(year: nat): nat {
    if year == 0 then 0 else DaysBeforeYear(year - 1) + YearLength(year - 1)
  }

  function DaysBeforeMonth(year: nat, month: nat): nat {
    if month <= 1 then 0 else DaysBeforeMonth(year, month - 1) + DaysInMonth(year, month - 1)
  }

  /** Ten characters: digits, with dashes in the fifth and the eighth place. */
  predicate DateShaped(raw: Text) {
    && |raw| == 10
    && raw[4] == 45 && raw[7] == 45
    && forall i :: 0 <= i < 10 && i != 4 && i != 7 ==> IsDigit(raw[i])
  }

  lemma ShortPowers(w: nat)
    requires w <= 4
    ensures Pow10(w) <= 10000
  {
    assert Pow10(4) == 10 * Pow10(3) == 100 * Pow10(2) == 1000 * Pow10(1) == 10000 * Pow10(0);
    if w == 3 {
    } else if w == 2 {
    } else if w == 1 {
    } else if w == 0 {
    }
  }

  lemma ShortDigitsHaveValue(t: Text)
    requires |t| <= 4
    ensures DigitsValue(t).Some? <==> AllDigits(t)
  {
    if AllDigits(t) {
      PadOfValue(t);
      ShortPowers(|t|);
    }
  }

  lemma ShapeByParts(raw: Text)
    requires |raw| == 10
    ensures DateShaped(raw) <==>
            raw[4] == 45 && raw[7] == 45 && AllDigits(raw[0..4]) && AllDigits(raw[5..7]) && AllDigits(raw[8..10])
  {
    if AllDigits(raw[0..4]) && AllDigits(raw[5..7]) && AllDigits(raw[8..10]) {
      forall i | 0 <= i < 10 && i != 4 && i != 7
        ensures IsDigit(raw[i])
      {
        if i < 4 {
          assert raw[i] == raw[0..4][i];
        } else if i < 7 {
          assert raw[i] == raw[5..7][i - 5];
        } else {
          assert raw[i] == raw[8..10][i - 8];
        }
      }
    }
  }

  /** Text of another shape is malformed; of this shape, it is a date or not a date of the calendar. */
  lemma MalformedIffMisshapen(raw: Text)
    ensures Parse(raw) == Err(Malformed) <==> !DateShaped(raw)
  {
    if |raw| == 10 {
      ShapeByParts(raw);
      ShortDigitsHaveValue(raw[0..4]);
      ShortDigitsHaveValue(raw[5..7]);
      ShortDigitsHaveValue(raw[8..10]);
    }
  }

  /** Days from the first day of year 0 up to and including `v`. */
  function DayNumber(v: Version): nat {
    DaysBeforeYear(v.year) + DaysBeforeMonth(v.year, v.month) + v.day
  }

  lemma {:induction false} MonthsMonotone(year: nat, m: nat, n: nat)
    requires 1 <= m < n
    ensures DaysBeforeMonth(year, m) + DaysInMonth(year, m) <= DaysBeforeMonth(year, n)
  {
    if m + 1 < n {
      MonthsMonotone(year, m, n - 1);
    }
  }

  /** The twelve months make up the year. */
  lemma MonthsFillYear(year: nat)
    ensures DaysBeforeMonth(year, 13) == YearLength(year)
  {
    var feb := DaysInMonth(year, 2);
    assert DaysBeforeMonth(year, 2) == 31;
    assert DaysBeforeMonth(year, 4) == 62 + feb;
    assert DaysBeforeMonth(year, 6) == 123 + feb;
    assert DaysBeforeMonth(year, 8) == 184 + feb;
    assert DaysBeforeMonth(year, 10) == 245 + feb;
    assert DaysBeforeMonth(year, 12) == 306 + feb;
  }

  lemma {:induction false} YearsMonotone(a: nat, b: nat)
    requires a < b
    ensures DaysBeforeYear(a) + YearLength(a) <= DaysBeforeYear(b)
  {
    if a + 1 < b {
      YearsMonotone(a, b - 1);
    }
  }

  // Multiples of 4, 100 and 400 below a year, zero included.

  function Fours(year: nat): nat {
    (year + 3) / 4
  }

  function Hundreds(year: nat): nat {
    (year + 99) / 100
  }

  function FourHundreds(year: nat): nat {
    (year + 399) / 400
  }

  lemma FoursNext(year: nat)
    ensures Fours(year + 1) == Fours(year) + if year % 4 == 0 then 1 else 0
  {
  }

  lemma HundredsNext(year: nat)
    ensures Hundreds(year + 1) == Hundreds(year) + if year % 100 == 0 then 1 else 0
  {
  }

  lemma FourHundredsNext(year: nat)
    ensures FourHundreds(year + 1) == FourHundreds(year) + if year % 400 == 0 then 1 else 0
  {
  }

  lemma MultipleOfFour(k: nat)
    ensures (4 * k) % 4 == 0
  {
  }

  lemma MultipleOfHundred(k: nat)
    ensures (100 * k) % 100 == 0
  {
  }

  lemma HundredsAreFours(year: nat)
    requires year % 100 == 0
    ensures year % 4 == 0
  {
    MultipleOfFour(25 * (year / 100));
    assert year == 4 * (25 * (year / 100));
  }

  lemma FourHundredsAreHundreds(year: nat)
    requires year % 400 == 0
    ensures year % 100 == 0
  {
    MultipleOfHundred(4 * (year / 400));
    assert year == 100 * (4 * (year / 400));
  }

  lemma LeapRule(year: nat)
    ensures IsLeap(year) <==> year % 400 == 0 || (year % 4 == 0 && year % 100 != 0)
  {
    if year % 400 == 0 {
      FourHundredsAreHundreds(year);
      HundredsAreFours(year);
    }
  }

  function MonthLengths(leap: bool): (r: seq<nat>)
    ensures |r| == 12
  {
    [31, if leap then 29 else 28, 31, 30, 31, 30, 31, 31, 30, 31, 30, 31]
  }

  lemma LengthByTable(year: nat, month: nat)
    requires 1 <= month <= 12
    ensures DaysInMonth(year, month) == MonthLengths(IsLeap(year))[month - 1]
  {
    hide IsLeap;
    var t := MonthLengths(IsLeap(year));
    assert t[0] == t[2] == t[4] == t[6] == t[7] == t[9] == t[11] == 31 && t[3] == t[5] == t[8] == t[10] == 30;
  }

  /** The dates that exist, month by month, with the Gregorian leap rule. */
  lemma CalendarTable(year: nat, month: nat, day: nat)
    ensures var leap := year % 400 == 0 || (year % 4 == 0 && year % 100 != 0);
            FromYmd(year, month, day) ==
            if 1 <= month <= 12 && 1 <= day <= MonthLengths(leap)[month - 1] then Some(Version(year, month, day)) else None
  {
    hide IsLeap, DaysInMonth, MonthLengths;
    LeapRule(year);
    if 1 <= month <= 12 {
      LengthByTable(year, month);
    }
  }

  lemma LeapCount(year: nat)
    ensures Fours(year + 1) - Hundreds(year + 1) + FourHundreds(year + 1)
            == Fours(year) - Hundreds(year) + FourHundreds(year) + if IsLeap(year) then 1 else 0
  {
    hide Fours, Hundreds, FourHundreds;
    FoursNext(year);
    HundredsNext(year);
    FourHundredsNext(year);
    if year % 100 == 0 {
      HundredsAreFours(year);
    }
    if year % 400 == 0 {
      FourHundredsAreHundreds(year);
    }
  }

  lemma {:induction false} DaysBeforeYearCounts(year: nat)
    ensures DaysBeforeYear(year) == 365 * year + Fours(year) - Hundreds(year) + FourHundreds(year)
  {
    if year > 0 {
      hide Fours, Hundreds, FourHundreds, IsLeap;
      DaysBeforeYearCounts(year - 1);
      LeapCount(year - 1);
    }
  }

  /** The recursive count of days is the Gregorian leap rule in closed form. */
  lemma DaysBeforeYearClosedForm(year: nat)
    ensures DaysBeforeYear(year) == 365 * year + (year + 3) / 4 - (year + 99) / 100 + (year + 399) / 400
  {
    DaysBeforeYearCounts(year);
  }

  lemma EarlierIsFewerDays(a: Version, b: Version)
    requires Exists(a) && Exists(b) && Less(a, b)
    ensures DayNumber(a) < DayNumber(b)
  {
    if a.year < b.year {
      YearsMonotone(a.year, b.year);
      MonthsMonotone(a.year, a.month, 13);
      MonthsFillYear(a.year);
    } else if a.month < b.month {
      MonthsMonotone(a.year, a.month, b.month);
    }
  }

  /** For every pair of versions the derived order is the order of days. */
  lemma OrderIsChronological(a: Version, b: Version)
    requires Exists(a) && Exists(b)
    ensures Less(a, b) <==> DayNumber(a) < DayNumber(b)
    ensures a == b <==> DayNumber(a) == DayNumber(b)
  {
    if Less(a, b) {
      EarlierIsFewerDays(a, b);
    } else if Less(b, a) {
      EarlierIsFewerDays(b, a);
    }
  }

  /** Two fields of one width with a dash behind them compare first. */
  lemma LexField(a: Text, c: Text, b: Text, d: Text)
    requires |a| == |b|
    ensures LexLess(a + ([DASH] + c), b + ([DASH] + d)) <==> LexLess(a, b) || (a == b && LexLess(c, d))
  {
    hide LexLess;
    LexConcat(a, [DASH] + c, b, [DASH] + d);
    LexConcat([DASH], c, [DASH], d);
    LexSingle(DASH, DASH);
  }

  lemma PrintFields(v: Version)
    requires v.year <= 9999
    ensures Print(v) == Pad(4, v.year) + ([DASH] + (Pad(2, v.month) + ([DASH] + Pad(2, v.day))))
  {
    hide Pad;
  }

  /** Up to year 9999 it is also the byte order of the spellings. */
  lemma OrderIsByteOrder(a: Version, b: Version)
    requires Exists(a) && Exists(b) && a.year <= 9999 && b.year <= 9999
    ensures Less(a, b) <==> LexLess(Print(a), Print(b))
  {
    hide LexLess, Pad, Pow10;
    Powers();
    PadOrder(4, a.year, b.year);
    PadOrder(2, a.month, b.month);
    PadOrder(2, a.day, b.day);
    hide Print;
    PrintFields(a);
    PrintFields(b);
    LexField(Pad(4, a.year), Pad(2, a.month) + ([DASH] + Pad(2, a.day)), Pad(4, b.year), Pad(2, b.month) + ([DASH] + Pad(2, b.day)));
    LexField(Pad(2, a.month), Pad(2, a.day), Pad(2, b.month), Pad(2, b.day));
  }
}
