/**
 The scanner that reads the width boundaries out of a media condition, against a definition of
 what it should find that has no state.  Conditions are ASCII, so code points and UTF-16 units agree.
 */
module Widths {
  import opened Wrappers
  import opened Text

  /** A JavaScript number, as far as `Number(digits)` can produce one. */
  datatype Number = NaN | Finite(value: real)

  predicate IsNumeric(c: char) { '0' <= c <= '9' || c == '.' }

  predicate AllNumeric(run: string) {
    forall i | 0 <= i < |run| :: IsNumeric(run[i])
  }

  function Decimal(digits: string): real
    requires forall i | 0 <= i < |digits| :: '0' <= digits[i] <= '9'
  {
    if digits == [] then 0.0
    else
      var n := |digits| - 1;
      10.0 * Decimal(digits[..n]) + (digits[n] - '0') as int as real
  }

  function Tenth(n: nat): real {
    if n == 0 then 1.0 else Tenth(n - 1) / 10.0
  }

  /** `Number` on digits and dots: at most one dot, and at least one digit, or not a number. */
  function ParseNumber(run: string): Number
    requires AllNumeric(run)
  {
    var parts := Split(run, '.');
    JoinOfSplit(run, '.');
    if |parts| > 2 || run == "." then NaN
    else
      PartsAreDigits(run);
      if |parts| == 1 then Finite(Decimal(run))
      else Finite(Decimal(parts[0]) + Decimal(parts[1]) * Tenth(|parts[1]|))
  }

  lemma {:induction false} PartsAreDigits(run: string)
    requires AllNumeric(run)
    ensures var parts := Split(run, '.');
            && (forall k, i | 0 <= k < |parts| && 0 <= i < |parts[k]| :: '0' <= parts[k][i] <= '9')
            && (|parts| == 1 ==> parts[0] == run)
  {
    JoinOfSplit(run, '.');
    PartsComeFrom(run);
    var parts := Split(run, '.');
    forall k, i | 0 <= k < |parts| && 0 <= i < |parts[k]| ensures '0' <= parts[k][i] <= '9' {
      assert parts[k][i] in parts[k];
      assert parts[k][i] in run;
    }
  }

  lemma {:induction false} PartsComeFrom(run: string)
    ensures forall k, c | 0 <= k < |Split(run, '.')| && c in Split(run, '.')[k] :: c in run
  {
    if run != [] {
      PartsComeFrom(run[1..]);
      assert run == [run[0]] + run[1..];
    }
  }

  datatype Unit = Px | Rem | Em

  function UnitText(u: Unit): string {
    match u
    case Px => "px"
    case Rem => "rem"
    case Em => "em"
  }

  predicate StartsWith(s: string, prefix: string, i: nat) {
    i + |prefix| <= |s| && s[i..i + |prefix|] == prefix
  }

  /** `LENGTH_UNITS.find(...)`: the units in their declared order. */
  function UnitAt(s: string, i: nat): Option<Unit> {
    if StartsWith(s, "px", i) then Some(Px)
    else if StartsWith(s, "rem", i) then Some(Rem)
    else if StartsWith(s, "em", i) then Some(Em)
    else None
  }

  function Scaled(u: Unit, n: Number, rootPx: real): Number {
    if u.Px? || n.NaN? then n else Finite(n.value * rootPx)
  }

  predicate Includes(s: string, t: string) {
    exists i :: 0 <= i <= |s| && StartsWith(s, t, i)
  }

  /** A text is included where it stands between a start and a rest. */
  lemma {:induction false} IncludesIff(s: string, t: string)
    ensures Includes(s, t) <==> exists a: string, b: string :: s == a + t + b
  {
    if i :| 0 <= i <= |s| && StartsWith(s, t, i) {
      assert s == s[..i] + t + s[i + |t|..];
    }
    if a: string, b: string :| s == a + t + b {
      assert s[|a|..|a| + |t|] == t;
      assert StartsWith(s, t, |a|);
    }
  }

  // ----- what the scan should find -----

  /** Where the numeric run that ends at `j` begins; `j` itself if none does. */
  function RunStart(s: string, j: nat): (i: nat)
    requires j <= |s|
    ensures i <= j && AllNumeric(s[i..j])
    ensures i > 0 ==> !IsNumeric(s[i - 1])
  {
    if j > 0 && IsNumeric(s[j - 1]) then
      var i := RunStart(s, j - 1);
      assert s[i..j] == s[i..j - 1] + [s[j - 1]];
      i
    else
      j
  }

  /** The width a run ending at `j` stands for, if a unit follows it there. */
  function WidthEndingAt(s: string, j: nat, rootPx: real): seq<Number>
    requires j < |s|
  {
    var i := RunStart(s, j);
    if IsNumeric(s[j]) || i == j || UnitAt(s, j).None? then []
    else [Scaled(UnitAt(s, j).value, ParseNumber(s[i..j]), rootPx)]
  }

  function WidthsBefore(s: string, n: nat, rootPx: real): seq<Number>
    requires n <= |s|
  {
    if n == 0 then [] else WidthsBefore(s, n - 1, rootPx) + WidthEndingAt(s, n - 1, rootPx)
  }

  function Widths(s: string, rootPx: real): seq<Number> {
    WidthsBefore(s, |s|, rootPx)
  }

  /** `widthsOf`: one pass that gathers digits and judges each run at the character after it. */
  method WidthsOf(condition: string, rootPx: real) returns (widths: seq<Number>)
    ensures widths == if Includes(condition, "width") then Widths(condition, rootPx) else []
  {
    if !Includes(condition, "width") {
      return [];
    }
    hide ParseNumber, AllNumeric, UnitAt, Includes, RunStart, WidthEndingAt, Scaled, WidthsBefore;
    NothingBefore(condition, rootPx);
    widths := [];
    var digits := "";
    for index := 0 to |condition|
      invariant digits == condition[RunStart(condition, index)..index]
      invariant widths == WidthsBefore(condition, index, rootPx)
    {
      ScanStep(condition, index, rootPx);
      assert widths + [] == widths;
      var character := condition[index];
      if '0' <= character <= '9' || character == '.' {
        digits := digits + [character];
        continue;
      }
      if digits == "" {
        continue;
      }
      var unit := UnitAt(condition, index);
      if unit.Some? {
        widths := widths + [Scaled(unit.value, ParseNumber(digits), rootPx)];
      }
      digits := "";
    }
  }

  lemma {:induction false} NothingBefore(s: string, rootPx: real)
    ensures RunStart(s, 0) == 0 && WidthsBefore(s, 0, rootPx) == []
  {
  }

  lemma ScanStep(s: string, j: nat, rootPx: real)
    requires j < |s|
    ensures RunStart(s, j + 1) == if IsNumeric(s[j]) then RunStart(s, j) else j + 1
    ensures WidthsBefore(s, j + 1, rootPx) == WidthsBefore(s, j, rootPx) + WidthEndingAt(s, j, rootPx)
    ensures var digits := s[RunStart(s, j)..j];
            WidthEndingAt(s, j, rootPx) ==
            if IsNumeric(s[j]) || digits == "" || UnitAt(s, j).None? then []
            else [Scaled(UnitAt(s, j).value, ParseNumber(digits), rootPx)]
  {
    hide ParseNumber, UnitAt, Scaled;
  }

  // ----- exactly the maximal runs -----

  /** `s[i..j]` is a run of digits and dots that cannot be extended either way, and a unit follows. */
  ghost predicate IsWidth(s: string, i: int, j: int, u: Unit) {
    && 0 <= i < j < |s|
    && AllNumeric(s[i..j])
    && (i > 0 ==> !IsNumeric(s[i - 1]))
    && !IsNumeric(s[j])
    && StartsWith(s, UnitText(u), j)
  }

  lemma UnitsExclude(s: string, j: nat, u: Unit)
    ensures StartsWith(s, UnitText(u), j) <==> UnitAt(s, j) == Some(u)
  {
    if StartsWith(s, "px", j) { assert s[j..j + 2][0] == 'p' == s[j]; }
    if StartsWith(s, "rem", j) { assert s[j..j + 3][0] == 'r' == s[j]; }
    if StartsWith(s, "em", j) { assert s[j..j + 2][0] == 'e' == s[j]; }
  }

  lemma {:induction false} RunStartIsUnique(s: string, i: nat, j: nat)
    requires i <= j <= |s| && AllNumeric(s[i..j]) && (i > 0 ==> !IsNumeric(s[i - 1]))
    ensures RunStart(s, j) == i
  {
    if i < j {
      assert s[i..j][j - 1 - i] == s[j - 1] && s[i..j][..j - 1 - i] == s[i..j - 1];
      RunStartIsUnique(s, i, j - 1);
    }
  }

  lemma WidthIsScaledRun(s: string, j: nat, rootPx: real)
    requires j < |s|
    ensures WidthEndingAt(s, j, rootPx) == [] <==> forall i, u :: !IsWidth(s, i, j, u)
    ensures forall i, u :: IsWidth(s, i, j, u) ==>
              WidthEndingAt(s, j, rootPx) == [Scaled(u, ParseNumber(s[i..j]), rootPx)]
  {
    hide ParseNumber, Scaled;
    forall u { UnitsExclude(s, j, u); }
    forall i, u | IsWidth(s, i, j, u)
      ensures RunStart(s, j) == i && UnitAt(s, j) == Some(u)
    {
      RunStartIsUnique(s, i, j);
    }
    if WidthEndingAt(s, j, rootPx) != [] {
      assert IsWidth(s, RunStart(s, j), j, UnitAt(s, j).value);
    }
  }

  /** A position yields a width exactly when a maximal run followed by a unit ends there, and then its value, scaled unless in pixels. */
  lemma WidthIsMaximalRun(s: string, j: nat, rootPx: real)
    requires j < |s|
    ensures WidthEndingAt(s, j, rootPx) == [] <==> forall i, u :: !IsWidth(s, i, j, u)
    ensures forall i, u :: IsWidth(s, i, j, u) ==>
              var n := ParseNumber(s[i..j]);
              WidthEndingAt(s, j, rootPx) == [if u.Px? || n.NaN? then n else Finite(n.value * rootPx)]
  {
    WidthIsScaledRun(s, j, rootPx);
    hide WidthEndingAt, ParseNumber, StartsWith;
  }

  // ----- what the numbers are -----

  lemma DecimalSnoc(digits: string, c: char)
    requires '0' <= c <= '9' && forall i | 0 <= i < |digits| :: '0' <= digits[i] <= '9'
    ensures Decimal(digits + [c]) == 10.0 * Decimal(digits) + (c - '0') as int as real
  {
    assert (digits + [c])[..|digits|] == digits;
  }

  lemma TenthSteps(n: nat)
    ensures Tenth(0) == 1.0 && 10.0 * Tenth(n + 1) == Tenth(n)
  {
  }

  predicate AllDigits(s: string) { forall i | 0 <= i < |s| :: '0' <= s[i] <= '9' }

  function Times(x: real, y: real): real { x * y }

  lemma ShiftByOne(whole: real, front: real, a: real, c: real, t: real, u: real)
    requires Times(whole, t) == a + Times(front, t) && 10.0 * u == t
    ensures Times(10.0 * whole + c, u) == a + Times(10.0 * front + c, u)
  {
    assert whole * t == whole * (10.0 * u) == (10.0 * whole) * u;
    assert front * t == front * (10.0 * u) == (10.0 * front) * u;
  }

  /** A digit after the point counts a tenth of the last place: shifting the point divides what all the digits read by ten. */
  lemma {:induction false} PointShifts(a: string, b: string)
    requires AllDigits(a) && AllDigits(b)
    ensures AllDigits(a + b)
    ensures Times(Decimal(a + b), Tenth(|b|)) == Decimal(a) + Times(Decimal(b), Tenth(|b|))
  {
    if b == [] {
      assert a + b == a;
      NothingAfterThePoint(Decimal(a));
    } else {
      var n := |b| - 1;
      var front, c := b[..n], b[n];
      PointShifts(a, front);
      assert a + b == a + front + [c] && b == front + [c];
      DecimalSnoc(a + front, c);
      DecimalSnoc(front, c);
      TenthSteps(n);
      hide Decimal, Tenth, Times;
      ShiftByOne(Decimal(a + front), Decimal(front), Decimal(a), (c - '0') as int as real, Tenth(n), Tenth(n + 1));
    }
  }

  lemma NothingAfterThePoint(x: real)
    ensures Times(x, Tenth(0)) == x && Times(Decimal([]), Tenth(0)) == 0.0
  {
  }

  lemma {:induction false} SplitNumber(a: string, b: string)
    requires AllDigits(a) && AllDigits(b)
    ensures Split(a, '.') == [a] && Split(a + "." + b, '.') == [a, b] && AllNumeric(a + "." + b)
    ensures a + b == "" <==> a + "." + b == "."
  {
    SplitOfPart(a, '.');
    SplitOfPart(b, '.');
    SplitAfterPart(a, b, '.');
    assert a + "." + b == a + ['.'] + b;
  }

  /** A run of digits reads as its decimal value; with one point in it, as that of all its digits, the point shifted. */
  lemma {:induction false} NumbersRead(a: string, b: string)
    requires AllDigits(a) && AllDigits(b)
    ensures ParseNumber(a) == Finite(Decimal(a))
    ensures AllNumeric(a + "." + b) && AllDigits(a + b)
    ensures ParseNumber(a + "." + b) == if a + b == "" then NaN else Finite(Times(Decimal(a + b), Tenth(|b|)))
  {
    hide Split, Decimal, Tenth;
    SplitNumber(a, b);
    PointShifts(a, b);
    assert a != "." by {
      assert "."[0] == '.';
    }
  }

  /** A second point makes it no number. */
  lemma {:induction false} SecondPointIsNone(a: string, b: string, rest: string)
    requires AllDigits(a) && AllDigits(b) && AllNumeric(rest)
    ensures AllNumeric(a + "." + b + "." + rest) && ParseNumber(a + "." + b + "." + rest) == NaN
  {
    SplitAfterPart(a, b + ['.'] + rest, '.');
    SplitAfterPart(b, rest, '.');
    assert a + "." + b + "." + rest == a + ['.'] + (b + ['.'] + rest);
    hide Split, Decimal, Tenth;
  }

  // ----- distribution over concatenation -----

  /** A cut after `a` falls neither in a run nor inside the unit of one. */
  predicate IsCut(a: string) {
    && (a != [] ==> !IsNumeric(a[|a| - 1]))
    && forall j | 0 < j < |a| && IsNumeric(a[j - 1]) && !IsNumeric(a[j]) ::
         a[j..] != "p" && a[j..] != "r" && a[j..] != "re" && a[j..] != "e"
  }

  lemma {:induction false} RunStartInPrefix(a: string, b: string, j: nat)
    requires j <= |a|
    ensures RunStart(a + b, j) == RunStart(a, j)
  {
    if j > 0 && IsNumeric(a[j - 1]) {
      RunStartInPrefix(a, b, j - 1);
    }
  }

  lemma {:induction false} RunStartInSuffix(a: string, b: string, j: nat)
    requires j <= |b| && (a != [] ==> !IsNumeric(a[|a| - 1]))
    ensures RunStart(a + b, |a| + j) == |a| + RunStart(b, j)
  {
    if j > 0 && IsNumeric(b[j - 1]) {
      RunStartInSuffix(a, b, j - 1);
    }
  }

  /** Whether a text that starts at `j` in `a + b` already ends in `a`, or reaches into `b`. */
  lemma StartsWithInPrefix(a: string, b: string, t: string, j: nat)
    requires j < |a| && t != []
    ensures StartsWith(a + b, t, j) <==>
            StartsWith(a, t, j) || (|a| - j < |t| && a[j..] == t[..|a| - j] && StartsWith(a + b, t, j))
  {
    var s := a + b;
    if j + |t| <= |a| {
      assert s[j..j + |t|] == a[j..j + |t|];
    } else if StartsWith(s, t, j) {
      assert a[j..] == s[j..j + |t|][..|a| - j];
    }
  }

  lemma UnitInPrefix(a: string, b: string, j: nat)
    requires IsCut(a) && 0 < j < |a| && IsNumeric(a[j - 1]) && !IsNumeric(a[j])
    ensures UnitAt(a + b, j) == UnitAt(a, j)
  {
    var k := |a| - j;
    StartsWithInPrefix(a, b, "px", j);
    StartsWithInPrefix(a, b, "rem", j);
    StartsWithInPrefix(a, b, "em", j);
    assert k == 1 ==> "px"[..k] == "p" && "rem"[..k] == "r" && "em"[..k] == "e";
    assert k == 2 ==> "rem"[..k] == "re";
  }

  lemma UnitInSuffix(a: string, b: string, j: nat)
    requires j <= |b|
    ensures UnitAt(a + b, |a| + j) == UnitAt(b, j)
  {
    var s := a + b;
    forall t: string ensures StartsWith(s, t, |a| + j) <==> StartsWith(b, t, j) {
      if j + |t| <= |b| {
        assert s[|a| + j..|a| + j + |t|] == b[j..j + |t|];
      }
    }
  }

  lemma WidthEndingInPrefix(a: string, b: string, j: nat, rootPx: real)
    requires IsCut(a) && j < |a|
    ensures WidthEndingAt(a + b, j, rootPx) == WidthEndingAt(a, j, rootPx)
  {
    RunStartInPrefix(a, b, j);
    var i := RunStart(a, j);
    assert (a + b)[i..j] == a[i..j];
    assert i < j ==> IsNumeric(a[j - 1]);
    if i < j && !IsNumeric(a[j]) {
      UnitInPrefix(a, b, j);
    }
    hide ParseNumber, UnitAt, IsCut, RunStart, IsNumeric;
  }

  lemma {:induction false} WidthsInPrefix(a: string, b: string, n: nat, rootPx: real)
    requires IsCut(a) && n <= |a|
    ensures WidthsBefore(a + b, n, rootPx) == WidthsBefore(a, n, rootPx)
  {
    hide WidthEndingAt, IsCut;
    if n > 0 {
      WidthsInPrefix(a, b, n - 1, rootPx);
      WidthEndingInPrefix(a, b, n - 1, rootPx);
    }
  }

  lemma SliceInSuffix(a: string, b: string, i: nat, j: nat)
    requires i <= j <= |b|
    ensures (a + b)[|a| + i..|a| + j] == b[i..j]
  {
    assert (a + b)[|a|..] == b;
  }

  lemma CutEndsNoRun(a: string)
    requires IsCut(a)
    ensures a != [] ==> !IsNumeric(a[|a| - 1])
  {
  }

  lemma WidthEndingInSuffix(a: string, b: string, j: nat, rootPx: real)
    requires IsCut(a) && j < |b|
    ensures WidthEndingAt(a + b, |a| + j, rootPx) == WidthEndingAt(b, j, rootPx)
  {
    hide ParseNumber, AllNumeric, UnitAt, IsCut, RunStart;
    CutEndsNoRun(a);
    RunStartInSuffix(a, b, j);
    UnitInSuffix(a, b, j);
    SliceInSuffix(a, b, RunStart(b, j), j);
    assert (a + b)[|a| + j] == b[j];
  }

  lemma {:induction false} WidthsInSuffix(a: string, b: string, n: nat, rootPx: real)
    requires IsCut(a) && n <= |b|
    ensures WidthsBefore(a + b, |a| + n, rootPx) == WidthsBefore(a, |a|, rootPx) + WidthsBefore(b, n, rootPx)
  {
    hide WidthEndingAt, IsCut;
    if n == 0 {
      WidthsInPrefix(a, b, |a|, rootPx);
      assert WidthsBefore(a, |a|, rootPx) + [] == WidthsBefore(a, |a|, rootPx);
    } else {
      WidthsInSuffix(a, b, n - 1, rootPx);
      WidthEndingInSuffix(a, b, n - 1, rootPx);
    }
  }

  /** The scan distributes over concatenation at every cut. */
  lemma WidthsDistribute(a: string, b: string, rootPx: real)
    requires IsCut(a)
    ensures Widths(a + b, rootPx) == Widths(a, rootPx) + Widths(b, rootPx)
  {
    hide WidthsBefore, IsCut;
    WidthsInSuffix(a, b, |b|, rootPx);
  }
}
