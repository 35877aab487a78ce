/**
 The contrast verifier `verify_all` and the PASS/FAIL decisions of the generated report, on
 arbitrary theme tables, in exact arithmetic.
 */
module Audit {
  import opened Wrappers
  import opened Srgb
  import opened Colour
  import opened Tokens
  import opened Stylesheet

  datatype Target = Body | Large | Ui

  function Required(mode: Mode, target: Target): real {
    match target
    case Body => if mode.HighContrast? then 7.0 else 4.5
    case Large => if mode.HighContrast? then 4.5 else 3.0
    case Ui => 3.0
  }

  /** A critical pair, named by its two tokens rather than by the script's label for them. */
  datatype Pair = Pair(fg: Key, bg: Key, target: Target)

  const PAIRS: seq<Pair> := [
    Pair(Text, Background, Body),
    Pair(Text, Surface, Body),
    Pair(TextMuted, Background, Body),
    Pair(TextMuted, Surface, Body),
    Pair(PrimaryForeground, Primary, Body),
    Pair(SecondaryForeground, Secondary, Body),
    Pair(DangerForeground, Danger, Body),
    Pair(DangerFg, DangerSubtle, Body),
    Pair(InfoFg, InfoSubtle, Body),
    Pair(SuccessFg, SuccessSubtle, Body),
    Pair(WarningFg, WarningSubtle, Body),
    Pair(BorderStrong, Surface, Ui),
    Pair(BorderStrong, Background, Ui),
    Pair(FocusRing, Background, Ui),
    Pair(FocusRing, Surface, Ui),
    Pair(Primary, Surface, Ui)
  ]

  const BUTTON_PAIR := Pair(PrimaryForeground, Primary, Body)
  const LINK_PAIR := Pair(Primary, Surface, Ui)

  /** `accent_labels`: the two pairs the report moves to its per-theme table. */
  predicate IsAccentPair(pair: Pair) { pair == BUTTON_PAIR || pair == LINK_PAIR }

  const TRANSPARENT := "transparent"
  const TOLERANCE := 0.005

  /** What comes of one pair; `Raises` where a colour cannot be parsed. */
  datatype Verdict = Skipped | Raises | Failing(ratio: real) | Passing(ratio: real)

  /** A ratio against a bar: at or above it passes. */
  function Measure(pow: real -> real, fg: string, bg: string, bar: real): Verdict
    requires IsPow2_4(pow)
  {
    var ratio := HexContrast(pow, fg, bg);
    if ratio.None? then Raises
    else if ratio.value >= bar then Passing(ratio.value)
    else Failing(ratio.value)
  }

  function Judge(pow: real -> real, p: Palette, mode: Mode, pair: Pair): Verdict
    requires IsPow2_4(pow) && Complete(p)
  {
    if p[pair.fg] == TRANSPARENT || p[pair.bg] == TRANSPARENT then Skipped
    else Measure(pow, p[pair.fg], p[pair.bg], Required(mode, pair.target) - TOLERANCE)
  }

  // ----- verify_all -----

  function PaletteOf(theme: Theme, mode: Mode): (p: Palette)
    requires Complete(theme.light) && Complete(theme.dark) && Complete(theme.hc)
    ensures Complete(p)
  {
    match mode
    case Light => theme.light
    case Dark => theme.dark
    case HighContrast => theme.hc
  }

  datatype Problem = Problem(theme: string, mode: Mode, pair: Pair, rounded: real, required: real, fg: string, bg: string)

  function RoundTo2(x: real): real { RoundHalfEven(x * 100.0) as real / 100.0 }

  function ProblemOf(theme: string, p: Palette, mode: Mode, pair: Pair, ratio: real): Problem
    requires Complete(p)
  {
    Problem(theme, mode, pair, RoundTo2(ratio), Required(mode, pair.target), p[pair.fg], p[pair.bg])
  }

  function Failures(theme: string, p: Palette, mode: Mode, pair: Pair, verdict: Verdict): seq<Problem>
    requires Complete(p)
  {
    if verdict.Failing? then [ProblemOf(theme, p, mode, pair, verdict.ratio)] else []
  }

  /** The failures among some pairs of one palette, in order; `None` if one of them raises. */
  function PairProblems(pow: real -> real, theme: string, p: Palette, mode: Mode, pairs: seq<Pair>)
    : Option<seq<Problem>>
    requires IsPow2_4(pow) && Complete(p)
  {
    if pairs == [] then Some([])
    else
      var first := Judge(pow, p, mode, pairs[0]);
      if first.Raises? then None
      else Prepend(Failures(theme, p, mode, pairs[0], first), PairProblems(pow, theme, p, mode, pairs[1..]))
  }

  const MODES: seq<Mode> := [Light, Dark, HighContrast]

  function ModeProblems(pow: real -> real, theme: Theme, modes: seq<Mode>): Option<seq<Problem>>
    requires IsPow2_4(pow) && Complete(theme.light) && Complete(theme.dark) && Complete(theme.hc)
  {
    if modes == [] then Some([])
    else
      var first := PairProblems(pow, theme.name, PaletteOf(theme, modes[0]), modes[0], PAIRS);
      if first.None? then None else Prepend(first.value, ModeProblems(pow, theme, modes[1..]))
  }

  function Problems(pow: real -> real, themes: seq<Theme>): Option<seq<Problem>>
    requires IsPow2_4(pow) && AllComplete(themes)
  {
    if themes == [] then Some([])
    else
      var first := ModeProblems(pow, themes[0], MODES);
      if first.None? then None else Prepend(first.value, Problems(pow, themes[1..]))
  }

  /** `verify_all`: three nested loops over themes, modes and pairs, collecting the problems. */
  method VerifyAll(pow: real -> real, themes: seq<Theme>) returns (problems: Option<seq<Problem>>)
    requires IsPow2_4(pow) && AllComplete(themes)
    ensures problems == Problems(pow, themes)
  {
    hide MODES, ModeProblems;
    var found: seq<Problem> := [];
    assert themes[0..] == themes;
    PrependUnits([], Problems(pow, themes));
    for i := 0 to |themes|
      invariant Problems(pow, themes) == Prepend(found, Problems(pow, themes[i..]))
    {
      assert themes[i..][1..] == themes[i + 1..];
      var inTheme := VerifyTheme(pow, themes[i]);
      if inTheme.None? {
        return None;
      }
      PrependTwice(found, inTheme.value, Problems(pow, themes[i + 1..]));
      found := found + inTheme.value;
    }
    PrependUnits(found, None);
    problems := Some(found);
  }

  method VerifyTheme(pow: real -> real, theme: Theme) returns (problems: Option<seq<Problem>>)
    requires IsPow2_4(pow) && Complete(theme.light) && Complete(theme.dark) && Complete(theme.hc)
    ensures problems == ModeProblems(pow, theme, MODES)
  {
    hide MODES, PairProblems;
    var found: seq<Problem> := [];
    assert MODES[0..] == MODES;
    PrependUnits([], ModeProblems(pow, theme, MODES));
    for m := 0 to |MODES|
      invariant ModeProblems(pow, theme, MODES) == Prepend(found, ModeProblems(pow, theme, MODES[m..]))
    {
      assert MODES[m..][1..] == MODES[m + 1..];
      var inMode := VerifyMode(pow, theme.name, PaletteOf(theme, MODES[m]), MODES[m]);
      if inMode.None? {
        return None;
      }
      PrependTwice(found, inMode.value, ModeProblems(pow, theme, MODES[m + 1..]));
      found := found + inMode.value;
    }
    PrependUnits(found, None);
    problems := Some(found);
  }

  method VerifyMode(pow: real -> real, theme: string, t: Palette, mode: Mode) returns (problems: Option<seq<Problem>>)
    requires IsPow2_4(pow) && Complete(t)
    ensures problems == PairProblems(pow, theme, t, mode, PAIRS)
  {
    hide PAIRS, HexContrast, RoundTo2, Required, TRANSPARENT;
    var found: seq<Problem> := [];
    assert PAIRS[0..] == PAIRS;
    PrependUnits([], PairProblems(pow, theme, t, mode, PAIRS));
    for k := 0 to |PAIRS|
      invariant PairProblems(pow, theme, t, mode, PAIRS) == Prepend(found, PairProblems(pow, theme, t, mode, PAIRS[k..]))
    {
      ghost var rest := PairProblems(pow, theme, t, mode, PAIRS[k + 1..]);
      assert PAIRS[k..][1..] == PAIRS[k + 1..];
      PrependTwice(found, [], rest);
      assert found + [] == found;
      var fg, bg := t[PAIRS[k].fg], t[PAIRS[k].bg];
      if fg == TRANSPARENT || bg == TRANSPARENT {
        continue;
      }
      var ratio := HexContrast(pow, fg, bg);
      if ratio.None? {
        return None;
      }
      var required := Required(mode, PAIRS[k].target);
      if ratio.value < required - TOLERANCE {
        var problem := Problem(theme, mode, PAIRS[k], RoundTo2(ratio.value), required, fg, bg);
        PrependTwice(found, [problem], rest);
        found := found + [problem];
      }
    }
    PrependUnits(found, None);
    problems := Some(found);
  }

  // ----- exactly the failing triples -----

  lemma {:induction false} PairProblemsAreFailures(pow: real -> real, theme: string, p: Palette, mode: Mode,
    pairs: seq<Pair>, x: Problem)
    requires IsPow2_4(pow) && Complete(p)
    ensures var found := PairProblems(pow, theme, p, mode, pairs);
            && (found.None? <==> exists pair :: pair in pairs && Judge(pow, p, mode, pair).Raises?)
            && (found.Some? ==>
                  (x in found.value <==>
                   x.pair in pairs && Judge(pow, p, mode, x.pair).Failing? &&
                   x == ProblemOf(theme, p, mode, x.pair, Judge(pow, p, mode, x.pair).ratio)))
  {
    hide Judge;
    if pairs != [] {
      PairProblemsAreFailures(pow, theme, p, mode, pairs[1..], x);
      assert pairs == [pairs[0]] + pairs[1..];
    }
  }

  lemma {:induction false} ModeProblemsAreFailures(pow: real -> real, theme: Theme, modes: seq<Mode>, x: Problem)
    requires IsPow2_4(pow) && Complete(theme.light) && Complete(theme.dark) && Complete(theme.hc)
    ensures var found := ModeProblems(pow, theme, modes);
            && (found.None? <==> exists mode, pair :: mode in modes && pair in PAIRS &&
                                   Judge(pow, PaletteOf(theme, mode), mode, pair).Raises?)
            && (found.Some? ==> (x in found.value <==> x.mode in modes && Reported(pow, theme, x)))
  {
    hide PAIRS, Judge;
    if modes != [] {
      ModeProblemsAreFailures(pow, theme, modes[1..], x);
      PairProblemsAreFailures(pow, theme.name, PaletteOf(theme, modes[0]), modes[0], PAIRS, x);
      assert modes == [modes[0]] + modes[1..];
      assert modes[0] in modes;
    }
  }

  /** `x` is the record of a failing pair of this theme. */
  ghost predicate Reported(pow: real -> real, theme: Theme, x: Problem)
    requires IsPow2_4(pow) && Complete(theme.light) && Complete(theme.dark) && Complete(theme.hc)
  {
    && x.pair in PAIRS
    && var verdict := Judge(pow, PaletteOf(theme, x.mode), x.mode, x.pair);
       verdict.Failing? && x == ProblemOf(theme.name, PaletteOf(theme, x.mode), x.mode, x.pair, verdict.ratio)
  }

  ghost predicate RaisesSomewhere(pow: real -> real, theme: Theme)
    requires IsPow2_4(pow) && Complete(theme.light) && Complete(theme.dark) && Complete(theme.hc)
  {
    exists mode, pair :: pair in PAIRS && Judge(pow, PaletteOf(theme, mode), mode, pair).Raises?
  }

  /**
   `verify_all` returns exactly the failing (theme, mode, pair) triples, each with its own record;
   it raises exactly when some pair that is not skipped has an unreadable colour.
   */
  lemma {:induction false} ProblemsAreFailures(pow: real -> real, themes: seq<Theme>, x: Problem)
    requires IsPow2_4(pow) && AllComplete(themes)
    ensures var found := Problems(pow, themes);
            && (found.None? <==> exists i :: 0 <= i < |themes| && RaisesSomewhere(pow, themes[i]))
            && (found.Some? ==> (x in found.value <==> exists i :: 0 <= i < |themes| && Reported(pow, themes[i], x)))
  {
    hide PAIRS, Judge;
    if themes != [] {
      ProblemsAreFailures(pow, themes[1..], x);
      ModeProblemsAreFailures(pow, themes[0], MODES, x);
      EveryMode();
      assert forall i | 0 < i < |themes| :: themes[i] == themes[1..][i - 1];
    }
  }

  lemma EveryMode()
    ensures forall m: Mode :: m in MODES
  {
    assert MODES[0] == Light && MODES[1] == Dark && MODES[2] == HighContrast;
    forall m: Mode ensures m in MODES {
      match m case Light => case Dark => case HighContrast =>
    }
  }

  // ----- what an empty result guarantees -----

  /** The critical pairs by what they are: text on its surfaces, labels on their buttons and boxes, outlines and links. */
  predicate IsCritical(pair: Pair) {
    match pair.target
    case Body =>
      || (pair.fg in {Text, TextMuted} && pair.bg in {Background, Surface})
      || (pair.fg == PrimaryForeground && pair.bg == Primary)
      || (pair.fg == SecondaryForeground && pair.bg == Secondary)
      || (pair.fg == DangerForeground && pair.bg == Danger)
      || (pair.fg == DangerFg && pair.bg == DangerSubtle)
      || (pair.fg == InfoFg && pair.bg == InfoSubtle)
      || (pair.fg == SuccessFg && pair.bg == SuccessSubtle)
      || (pair.fg == WarningFg && pair.bg == WarningSubtle)
    case Ui =>
      || (pair.fg in {BorderStrong, FocusRing} && pair.bg in {Surface, Background})
      || (pair.fg == Primary && pair.bg == Surface)
    case Large => false
  }

  ghost function PairIndex(pair: Pair): (i: nat)
    requires IsCritical(pair)
    ensures i < |PAIRS| && PAIRS[i] == pair
  {
    match pair.fg
    case Text => if pair.bg == Background then 0 else 1
    case TextMuted => if pair.bg == Background then 2 else 3
    case PrimaryForeground => 4
    case SecondaryForeground => 5
    case DangerForeground => 6
    case DangerFg => 7
    case InfoFg => 8
    case SuccessFg => 9
    case WarningFg => 10
    case BorderStrong => if pair.bg == Surface then 11 else 12
    case FocusRing => if pair.bg == Background then 13 else 14
    case _ => 15
  }

  lemma {:induction false} PairsAreCritical(pair: Pair)
    ensures pair in PAIRS <==> IsCritical(pair)
  {
    if IsCritical(pair) {
      assert PAIRS[PairIndex(pair)] == pair;
    }
  }

  /** The pair's contrast reaches its bar, less the tolerance, unless a colour of it is transparent. */
  ghost predicate Reaches(pow: real -> real, p: Palette, pair: Pair, bodyBar: real)
    requires IsPow2_4(pow) && Complete(p)
  {
    || p[pair.fg] == "transparent" || p[pair.bg] == "transparent"
    || var ratio := HexContrast(pow, p[pair.fg], p[pair.bg]);
       ratio.Some? && ratio.value >= if pair.target.Body? then bodyBar else 2.995
  }

  /** Body text at 4.5 to 1, in high contrast at 7 to 1, and outlines and links at 3 to 1, each rounded to two decimals. */
  ghost predicate MeetsTheBars(pow: real -> real, t: Theme)
    requires IsPow2_4(pow) && Complete(t.light) && Complete(t.dark) && Complete(t.hc)
  {
    forall pair | IsCritical(pair) ::
      Reaches(pow, t.light, pair, 4.495) && Reaches(pow, t.dark, pair, 4.495) && Reaches(pow, t.hc, pair, 6.995)
  }

  lemma {:induction false} JudgedByTheBar(pow: real -> real, p: Palette, mode: Mode, pair: Pair)
    requires IsPow2_4(pow) && Complete(p) && IsCritical(pair)
    ensures var v := Judge(pow, p, mode, pair);
            !v.Failing? && !v.Raises? <==> Reaches(pow, p, pair, if mode.HighContrast? then 6.995 else 4.495)
  {
    hide HexContrast, PAIRS;
  }

  lemma {:induction false} ThemePassesIff(pow: real -> real, t: Theme)
    requires IsPow2_4(pow) && Complete(t.light) && Complete(t.dark) && Complete(t.hc)
    ensures MeetsTheBars(pow, t) <==> !RaisesSomewhere(pow, t) && forall x :: !Reported(pow, t, x)
  {
    hide PAIRS, Judge, Reaches, IsCritical, RoundTo2, Required;
    forall pair: Pair { PairsAreCritical(pair); }
    forall mode, pair | IsCritical(pair)
      ensures var v := Judge(pow, PaletteOf(t, mode), mode, pair);
              !v.Failing? && !v.Raises? <==> Reaches(pow, PaletteOf(t, mode), pair, if mode.HighContrast? then 6.995 else 4.495)
    {
      JudgedByTheBar(pow, PaletteOf(t, mode), mode, pair);
    }
    if !MeetsTheBars(pow, t) {
      var pair :| IsCritical(pair) &&
        !(Reaches(pow, t.light, pair, 4.495) && Reaches(pow, t.dark, pair, 4.495) && Reaches(pow, t.hc, pair, 6.995));
      var mode := if !Reaches(pow, t.light, pair, 4.495) then Light
                  else if !Reaches(pow, t.dark, pair, 4.495) then Dark else HighContrast;
      var v := Judge(pow, PaletteOf(t, mode), mode, pair);
      if v.Failing? {
        assert Reported(pow, t, ProblemOf(t.name, PaletteOf(t, mode), mode, pair, v.ratio));
      }
    }
    assert PaletteOf(t, Light) == t.light && PaletteOf(t, Dark) == t.dark && PaletteOf(t, HighContrast) == t.hc;
    if MeetsTheBars(pow, t) {
      forall mode, pair | IsCritical(pair)
        ensures !Judge(pow, PaletteOf(t, mode), mode, pair).Failing? && !Judge(pow, PaletteOf(t, mode), mode, pair).Raises?
      {
        match mode case Light => case Dark => case HighContrast =>
      }
    }
  }

  /** `verify_all` returns an empty list exactly when every theme meets the bars in every mode. */
  lemma {:induction false} NoProblemsIffBarsMet(pow: real -> real, themes: seq<Theme>)
    requires IsPow2_4(pow) && AllComplete(themes)
    ensures Problems(pow, themes) == Some([]) <==> forall i | 0 <= i < |themes| :: MeetsTheBars(pow, themes[i])
  {
    hide PAIRS, MeetsTheBars, Reported, RaisesSomewhere, Problems;
    forall x: Problem { ProblemsAreFailures(pow, themes, x); }
    ProblemsAreFailures(pow, themes, Problem("", Light, BUTTON_PAIR, 0.0, 0.0, "", ""));
    forall i | 0 <= i < |themes|
      ensures MeetsTheBars(pow, themes[i]) <==> !RaisesSomewhere(pow, themes[i]) && forall x :: !Reported(pow, themes[i], x)
    {
      ThemePassesIff(pow, themes[i]);
    }
    var found := Problems(pow, themes);
    if found.Some? && found.value != [] {
      assert found.value[0] in found.value;
      var i :| 0 <= i < |themes| && Reported(pow, themes[i], found.value[0]);
      assert !MeetsTheBars(pow, themes[i]);
    }
    if found == Some([]) {
      forall i, x | 0 <= i < |themes| ensures !Reported(pow, themes[i], x) {
        assert x !in found.value;
      }
    }
  }

  // ----- hovered and pressed buttons -----

  /** The anchors leave both states of the button to be derived. */
  predicate Derives(c: Anchors, b: Button) {
    GivenStates(c, b).0.None? && GivenStates(c, b).1.None?
  }

  /**
   In a palette `build_mode` filled, a button pair that passes the audit and whose foreground is on
   the far side of its base still passes when hovered and when pressed, where those are derived.
   */
  lemma PassingButtonsStillPass(pow: real -> real, c: Anchors, dark: bool, mode: Mode, b: Button)
    requires IsPow2_4(pow) && Derives(c, b)
    requires BuildMode(c, dark).Some?
    requires var p := BuildMode(c, dark).value;
             var (fg, base, _, _) := ButtonKeys(b);
             && Judge(pow, p, mode, Pair(fg, base, Body)).Passing?
             && HexToRgb(p[fg]).Some? && HexToRgb(p[base]).Some?
             && OnFarSide(pow, p[fg], p[base], dark)
    ensures var p := BuildMode(c, dark).value;
            var (fg, base, hover, active) := ButtonKeys(b);
            var hovered, pressed := Judge(pow, p, mode, Pair(fg, hover, Body)), Judge(pow, p, mode, Pair(fg, active, Body));
            && hovered.Passing? && pressed.Passing?
            && pressed.ratio >= hovered.ratio >= Judge(pow, p, mode, Pair(fg, base, Body)).ratio
  {
    hide Measure, HexContrast, Hover, Active, HexToRgb, OnFarSide, BuildMode, GivenStates;
    var p := BuildMode(c, dark).value;
    var (fg, base, hover, active) := ButtonKeys(b);
    StatesAreGivenOrDerived(c, dark, b);
    StatesStillPass(pow, p[fg], p[base], dark, Required(mode, Body) - TOLERANCE);
  }

  lemma StatesStillPass(pow: real -> real, fg: string, base: string, dark: bool, bar: real)
    requires IsPow2_4(pow)
    requires HexToRgb(fg).Some? && HexToRgb(base).Some? && OnFarSide(pow, fg, base, dark)
    requires Measure(pow, fg, base, bar).Passing?
    ensures Hover(base, dark).Some? && Active(base, dark).Some?
    ensures var hover, active := Hover(base, dark).value, Active(base, dark).value;
            && hover != TRANSPARENT && active != TRANSPARENT
            && var hovered, pressed := Measure(pow, fg, hover, bar), Measure(pow, fg, active, bar);
               && hovered.Passing? && pressed.Passing?
               && pressed.ratio >= hovered.ratio >= Measure(pow, fg, base, bar).ratio
  {
    DerivedStatesNeverLoseContrast(pow, fg, base, dark);
    hide Hover, Active, OnFarSide;
    TransparentIsUnreadable();
  }

  lemma TransparentIsUnreadable()
    ensures HexToRgb(TRANSPARENT) == None
  {
    assert StripHashes(TRANSPARENT) == TRANSPARENT;
    assert Slice(TRANSPARENT, 0, 2) == ['t', 'r'];
  }
}
