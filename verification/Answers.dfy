/** Canonical answer values of the domain kernel, and how the ordered operators compare them. */
module Answers {
  import opened Wrappers

  /** A parsed value: text is normalised, a selection is deduplicated, so equality is the operators' own. */
  datatype Value =
    | TextValue(text: string)
    | NumberValue(number: real)
    | BooleanValue(truth: bool)
    | ChoiceValue(options: set<string>)

  /** The white space and line terminators that JavaScript's `trim` removes. */
  predicate IsSpace(c: char) {
    || c in " \t\n\r\U{0B}\U{0C}\U{A0}\U{1680}\U{2028}\U{2029}\U{202F}\U{205F}\U{3000}\U{FEFF}"
    || '\U{2000}' <= c <= '\U{200A}'
  }

  /** Empty or whitespace-only text is not an answer. */
  predicate IsBlank(v: Value) {
    v.TextValue? && forall i | 0 <= i < |v.text| :: IsSpace(v.text[i])
  }

  /** The code points of white space, by ECMA-262 sections 12.2 and 12.3. */
  const SPACES: set<int> :=
    {9, 10, 11, 12, 13, 32, 160, 5760, 8192, 8193, 8194, 8195, 8196, 8197, 8198, 8199, 8200, 8201, 8202,
     8232, 8233, 8239, 8287, 12288, 65279}

  lemma SpacesByCodePoint(c: char)
    ensures IsSpace(c) <==> c as int in SPACES
  {
  }

  /** Text is blank exactly when no character of it is visible; no number, truth value or selection is blank. */
  lemma {:induction false} BlankIff(v: Value)
    ensures IsBlank(v) <==> v.TextValue? && forall c | c in v.text :: c as int in SPACES
  {
    hide IsSpace, SPACES;
    if v.TextValue? {
      forall i | 0 <= i < |v.text| ensures IsSpace(v.text[i]) <==> v.text[i] as int in SPACES {
        SpacesByCodePoint(v.text[i]);
      }
      if i :| 0 <= i < |v.text| && !IsSpace(v.text[i]) {
        assert v.text[i] in v.text;
      }
    }
  }

  // ----- dates -----

  predicate IsDigit(c: char) { '0' <= c <= '9' }

  function Digit(c: char): nat
    requires IsDigit(c)
  {
    (c - '0') as nat
  }

  predicate DateShaped(s: string) {
    && |s| == 10 && s[4] == '-' && s[7] == '-'
    && IsDigit(s[0]) && IsDigit(s[1]) && IsDigit(s[2]) && IsDigit(s[3])
    && IsDigit(s[5]) && IsDigit(s[6]) && IsDigit(s[8]) && IsDigit(s[9])
  }

  function Year(s: string): nat
    requires DateShaped(s)
  {
    1000 * Digit(s[0]) + 100 * Digit(s[1]) + 10 * Digit(s[2]) + Digit(s[3])
  }

  function Month(s: string): nat
    requires DateShaped(s)
  {
    10 * Digit(s[5]) + Digit(s[6])
  }

  function Day(s: string): nat
    requires DateShaped(s)
  {
    10 * Digit(s[8]) + Digit(s[9])
  }

  function Figure(d: nat): (c: char)
    requires d < 10
    ensures IsDigit(c) && Digit(c) == d
  {
    "0123456789"[d]
  }

  /** The last `width` digits of a number, as printed. */
  function Digits(n: nat, width: nat): (s: string)
    ensures |s| == width
  {
    if width == 0 then "" else Digits(n / 10, width - 1) + [Figure(n % 10)]
  }

  /** The fixed-width encoding of a day. */
  function Iso(year: nat, month: nat, day: nat): (s: string)
    ensures |s| == 10
  {
    Digits(year, 4) + "-" + Digits(month, 2) + "-" + Digits(day, 2)
  }

  lemma {:induction false} TwoDigits(n: nat)
    ensures Digits(n, 2) == [Figure(n / 10 % 10), Figure(n % 10)]
  {
    assert Digits(n / 10, 1) == Digits(n / 10 / 10, 0) + [Figure(n / 10 % 10)];
  }

  lemma {:induction false} FourDigits(n: nat)
    ensures Digits(n, 4) == [Figure(n / 1000 % 10), Figure(n / 100 % 10), Figure(n / 10 % 10), Figure(n % 10)]
  {
    TwoDigits(n / 100);
    assert n / 10 / 10 == n / 100 && n / 100 / 10 == n / 1000;
    assert Digits(n / 10, 3) == Digits(n / 100, 2) + [Figure(n / 10 % 10)];
  }

  lemma Decimals(n: nat)
    requires n < 10000
    ensures n == 1000 * (n / 1000 % 10) + 100 * (n / 100 % 10) + 10 * (n / 10 % 10) + n % 10
    ensures n < 100 ==> n == 10 * (n / 10 % 10) + n % 10
  {
    assert n / 1000 == n / 1000 % 10;
  }

  lemma OneDecimal(d: nat, rest: nat)
    requires d < 10
    ensures (10 * rest + d) % 10 == d && (10 * rest + d) / 10 == rest
  {
  }

  lemma {:induction false} SameFigure(c: char)
    requires IsDigit(c)
    ensures Figure(Digit(c)) == c
  {
  }

  /** A day's fields are read back from its encoding. */
  lemma {:induction false} FieldsReadBack(year: nat, month: nat, day: nat)
    requires year < 10000 && month < 100 && day < 100
    ensures var iso := Iso(year, month, day);
            DateShaped(iso) && Year(iso) == year && Month(iso) == month && Day(iso) == day
  {
    FourDigits(year);
    TwoDigits(month);
    TwoDigits(day);
    Decimals(year);
    Decimals(month);
    Decimals(day);
    hide Digits, Digit, Figure, IsDigit;
  }

  lemma {:induction false} TwoPrinted(x: nat, y: nat)
    requires x < 10 && y < 10
    ensures Digits(10 * x + y, 2) == [Figure(x), Figure(y)]
  {
    hide Digits, Figure;
    OneMorePrinted(x, y, 1);
    OnePrinted(x);
  }

  lemma {:induction false} OnePrinted(x: nat)
    requires x < 10
    ensures Digits(x, 1) == [Figure(x)]
  {
    hide Figure;
    assert Digits(x / 10, 0) == "" && x % 10 == x;
  }

  lemma {:induction false} FourPrinted(w: nat, x: nat, y: nat, z: nat)
    requires w < 10 && x < 10 && y < 10 && z < 10
    ensures Digits(1000 * w + 100 * x + 10 * y + z, 4) == [Figure(w), Figure(x), Figure(y), Figure(z)]
  {
    hide Digits, Figure;
    var front := 10 * w + x;
    OneMorePrinted(10 * front + y, z, 3);
    OneMorePrinted(front, y, 2);
    TwoPrinted(w, x);
    assert 1000 * w + 100 * x + 10 * y + z == 10 * (10 * front + y) + z;
  }

  lemma {:induction false} OneMorePrinted(n: nat, d: nat, width: nat)
    requires d < 10
    ensures Digits(10 * n + d, width + 1) == Digits(n, width) + [Figure(d)]
  {
    OneDecimal(d, n);
    hide Figure;
  }

  /** Digits are those of the number they are read as. */
  lemma {:induction false} ReadTwo(a: char, b: char)
    requires IsDigit(a) && IsDigit(b)
    ensures Digits(10 * Digit(a) + Digit(b), 2) == [a, b]
  {
    hide Digits, Figure;
    SameFigure(a);
    SameFigure(b);
    TwoPrinted(Digit(a), Digit(b));
  }

  lemma {:induction false} ReadFour(a: char, b: char, c: char, d: char)
    requires IsDigit(a) && IsDigit(b) && IsDigit(c) && IsDigit(d)
    ensures Digits(1000 * Digit(a) + 100 * Digit(b) + 10 * Digit(c) + Digit(d), 4) == [a, b, c, d]
  {
    hide Digits, Figure;
    SameFigure(a);
    SameFigure(b);
    SameFigure(c);
    SameFigure(d);
    FourPrinted(Digit(a), Digit(b), Digit(c), Digit(d));
  }

  lemma FieldsAreSmall(s: string)
    requires DateShaped(s)
    ensures Year(s) < 10000 && Month(s) < 100 && Day(s) < 100
  {
  }

  lemma DateParts(s: string)
    requires DateShaped(s)
    ensures s == [s[0], s[1], s[2], s[3]] + "-" + [s[5], s[6]] + "-" + [s[8], s[9]]
  {
    hide IsDigit;
  }

  lemma {:induction false} FieldsPrinted(s: string)
    requires DateShaped(s)
    ensures Digits(Year(s), 4) == [s[0], s[1], s[2], s[3]]
    ensures Digits(Month(s), 2) == [s[5], s[6]] && Digits(Day(s), 2) == [s[8], s[9]]
  {
    hide Digits, Digit, IsDigit;
    ReadFour(s[0], s[1], s[2], s[3]);
    ReadTwo(s[5], s[6]);
    ReadTwo(s[8], s[9]);
  }

  /** A string of the shape is the encoding of its fields. */
  lemma {:induction false} ShapeIsIso(s: string)
    requires DateShaped(s)
    ensures Year(s) < 10000 && Month(s) < 100 && Day(s) < 100 && s == Iso(Year(s), Month(s), Day(s))
  {
    FieldsAreSmall(s);
    DateParts(s);
    FieldsPrinted(s);
    hide IsDigit, Digits, Year, Month, Day;
  }

  predicate IsLeapYear(year: nat) {
    year % 4 == 0 && (year % 100 != 0 || year % 400 == 0)
  }

  const DAYS_PER_MONTH: seq<nat> := [31, 28, 31, 30, 31, 30, 31, 31, 30, 31, 30, 31]

  /** `DateAnswerValue`: the shape YYYY-MM-DD, and a day the proleptic Gregorian calendar has. */
  predicate IsDate(s: string) {
    && DateShaped(s)
    && 1 <= Month(s) <= 12
    && 1 <= Day(s) <= (if Month(s) == 2 && IsLeapYear(Year(s)) then 29 else DAYS_PER_MONTH[Month(s) - 1])
  }

  /** Leap days of the proleptic Gregorian calendar, counted through a year by the 4, 100 and 400 rule. */
  function LeapDaysThrough(year: int): int {
    year / 4 - year / 100 + year / 400
  }

  lemma FourthYears(year: nat)
    ensures year / 4 - (year - 1) / 4 == if year % 4 == 0 then 1 else 0
  {
  }

  lemma HundredthYears(year: nat)
    ensures year / 100 - (year - 1) / 100 == if year % 100 == 0 then 1 else 0
    ensures year % 100 == 0 ==> year % 4 == 0
  {
    assert year == 100 * (year / 100) + year % 100;
    assert year % 100 == 0 ==> year == 4 * (25 * (year / 100));
  }

  lemma FourHundredthYears(year: nat)
    ensures year / 400 - (year - 1) / 400 == if year % 400 == 0 then 1 else 0
    ensures year % 400 == 0 ==> year % 100 == 0
  {
    assert year == 400 * (year / 400) + year % 400;
    assert year % 400 == 0 ==> year == 100 * (4 * (year / 400));
  }

  lemma LeapYearsAddADay(year: nat)
    ensures LeapDaysThrough(year) - LeapDaysThrough(year - 1) == if IsLeapYear(year) then 1 else 0
  {
    FourthYears(year);
    HundredthYears(year);
    FourHundredthYears(year);
  }

  /** A date is a string of the shape whose day its month has: 31, 30, or in February 28 and the leap day the year adds. */
  lemma DatesAreCalendarDays(s: string)
    ensures IsDate(s) <==>
            DateShaped(s) && 1 <= Day(s) <=
              (if Month(s) in {1, 3, 5, 7, 8, 10, 12} then 31
               else if Month(s) in {4, 6, 9, 11} then 30
               else if Month(s) == 2 then 28 + LeapDaysThrough(Year(s)) - LeapDaysThrough(Year(s) - 1)
               else 0)
  {
    if DateShaped(s) {
      LeapYearsAddADay(Year(s));
      hide IsLeapYear, LeapDaysThrough;
      if 1 <= Month(s) <= 12 {
        MonthLengths(Month(s));
      }
    }
  }

  lemma MonthLengths(month: nat)
    requires 1 <= month <= 12
    ensures DAYS_PER_MONTH[month - 1]
         == if month in {1, 3, 5, 7, 8, 10, 12} then 31 else if month == 2 then 28 else 30
    ensures month in {1, 3, 5, 7, 8, 10, 12} || month in {4, 6, 9, 11} || month == 2
  {
  }

  /** JavaScript's string order. */
  predicate Before(a: string, b: string) {
    if b == [] then false
    else if a == [] then true
    else a[0] < b[0] || (a[0] == b[0] && Before(a[1..], b[1..]))
  }

  /** Here `a` runs out, or falls below `b`, after a common start. */
  predicate FallsBelow(a: string, b: string, k: nat) {
    k < |b| && k <= |a| && a[..k] == b[..k] && (k == |a| || a[k] < b[k])
  }

  lemma {:induction false} FallsBelowLater(a: string, b: string, k: nat)
    requires a != [] && b != [] && a[0] == b[0]
    ensures FallsBelow(a, b, k + 1) <==> FallsBelow(a[1..], b[1..], k)
  {
    if k < |b| - 1 && k <= |a| - 1 {
      assert a[..k + 1] == [a[0]] + a[1..][..k] && b[..k + 1] == [b[0]] + b[1..][..k];
      assert a[..k + 1][1..] == a[1..][..k] && b[..k + 1][1..] == b[1..][..k];
    }
  }

  lemma SameStart(a: string, b: string, k: nat)
    requires k > 0 && FallsBelow(a, b, k)
    ensures a[0] == b[0]
  {
    assert a[..k][0] == b[..k][0];
  }

  /** A string comes before another exactly when at some place it does. */
  lemma {:induction false} BeforeIff(a: string, b: string)
    ensures Before(a, b) <==> exists k :: FallsBelow(a, b, k)
  {
    if b != [] && (a == [] || a[0] < b[0]) {
      assert FallsBelow(a, b, 0);
    } else if a != [] && b != [] {
      BeforeIff(a[1..], b[1..]);
      if a[0] == b[0] {
        forall k: nat { FallsBelowLater(a, b, k); }
        if k: nat :| FallsBelow(a, b, k) {
          assert FallsBelow(a[1..], b[1..], k - 1);
        }
      } else {
        forall k: nat | FallsBelow(a, b, k) && k > 0 { SameStart(a, b, k); }
      }
    }
  }

  function Ordering(less: bool, greater: bool): int {
    if less then -1 else if greater then 1 else 0
  }

  /** `compareValues`; `None` is its error: only two numbers, or two dates, have an order. */
  function Compare(a: Value, b: Value): Option<int> {
    match (a, b)
    case (NumberValue(x), NumberValue(y)) => Some(Ordering(x < y, x > y))
    case (TextValue(s), TextValue(t)) =>
      if IsDate(s) && IsDate(t) then Some(Ordering(Before(s, t), Before(t, s))) else None
    case _ => None
  }

  lemma {:induction false} BeforeAtFirstDifference(a: string, b: string, k: nat)
    requires |a| == |b| && k <= |a| && a[..k] == b[..k]
    ensures Before(a, b) == Before(a[k..], b[k..])
    decreases |a|
  {
    if k > 0 {
      assert a[0] == a[..k][0] == b[..k][0] == b[0];
      assert a[1..][..k - 1] == a[..k][1..] && b[1..][..k - 1] == b[..k][1..];
      BeforeAtFirstDifference(a[1..], b[1..], k - 1);
      assert a[1..][k - 1..] == a[k..] && b[1..][k - 1..] == b[k..];
    } else {
      assert a[0..] == a && b[0..] == b;
    }
  }

  predicate Earlier(a: string, b: string)
    requires DateShaped(a) && DateShaped(b)
  {
    || Year(a) < Year(b)
    || (Year(a) == Year(b) && Month(a) < Month(b))
    || (Year(a) == Year(b) && Month(a) == Month(b) && Day(a) < Day(b))
  }

  /** String order over the fixed-width encoding is calendar order. */
  lemma {:induction false} DateOrderIsCalendarOrder(a: string, b: string)
    requires DateShaped(a) && DateShaped(b)
    ensures Before(a, b) <==> Earlier(a, b)
  {
    if a == b {
      BeforeAtFirstDifference(a, b, 10);
    } else {
      var k := FirstDifference(a, b);
      BeforeAtFirstDifference(a, b, k);
      assert a[k..][0] == a[k] && b[k..][0] == b[k];
      forall j | 0 <= j < k ensures a[j] == b[j] {
        assert a[..k][j] == b[..k][j];
      }
      EarlierAtFirstDifference(a, b, k);
    }
  }

  lemma EarlierAtFirstDifference(a: string, b: string, k: nat)
    requires DateShaped(a) && DateShaped(b)
    requires k < 10 && (forall j | 0 <= j < k :: a[j] == b[j]) && a[k] != b[k]
    ensures Earlier(a, b) <==> a[k] < b[k]
  {
    assert k > 0 ==> a[0] == b[0];
    assert k > 1 ==> a[1] == b[1];
    assert k > 2 ==> a[2] == b[2];
    assert k > 3 ==> a[3] == b[3];
    assert k > 5 ==> a[5] == b[5];
    assert k > 6 ==> a[6] == b[6];
    assert k > 8 ==> a[8] == b[8];
    assert k != 4 && k != 7;
  }

  lemma FirstDifference(a: string, b: string) returns (k: nat)
    requires |a| == |b| && a != b
    ensures k < |a| && a[..k] == b[..k] && a[k] != b[k]
  {
    k := 0;
    while a[k] == b[k]
      invariant k < |a| && a[..k] == b[..k]
      invariant a[k..] != b[k..]
      decreases |a| - k
    {
      assert a[k..] == [a[k]] + a[k + 1..] && b[k..] == [b[k]] + b[k + 1..];
      k := k + 1;
    }
  }
}
