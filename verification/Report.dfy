/**
 The PASS/FAIL decisions of the generated report, and their agreement with `verify_all`: the
 report splits the high-contrast mode into one universal table and a per-theme accent table that
 has its own literal bars.
 */
module Report {
  import opened Wrappers
  import opened Srgb
  import opened Colour
  import opened Tokens
  import opened Stylesheet
  import opened Audit

  /** One decision the report prints. */
  datatype Cell =
    | TableCell(palette: Palette, mode: Mode, pair: Pair)
    | AccentCell(fg: string, bg: string, bar: real)

  datatype Row = Row(shown: real, pass: bool)

  predicate Readable(cell: Cell) { cell.TableCell? ==> Complete(cell.palette) }

  /** The accent table never skips a transparent colour, so it raises on one. */
  function Judged(pow: real -> real, cell: Cell): Verdict
    requires IsPow2_4(pow) && Readable(cell)
  {
    match cell
    case TableCell(p, mode, pair) => Judge(pow, p, mode, pair)
    case AccentCell(fg, bg, bar) => Measure(pow, fg, bg, bar)
  }

  ghost predicate AllReadable(cells: seq<Cell>) { forall i | 0 <= i < |cells| :: Readable(cells[i]) }

  function RowsOf(verdict: Verdict): seq<Row> {
    match verdict
    case Passing(ratio) => [Row(RoundTo2(ratio), true)]
    case Failing(ratio) => [Row(RoundTo2(ratio), false)]
    case _ => []
  }

  /** The rows printed for some cells; `None` if one of them raises. */
  function Rows(pow: real -> real, cells: seq<Cell>): Option<seq<Row>>
    requires IsPow2_4(pow) && AllReadable(cells)
  {
    if cells == [] then Some([])
    else
      var first := Judged(pow, cells[0]);
      if first.Raises? then None else Prepend(RowsOf(first), Rows(pow, cells[1..]))
  }

  function TableCells(p: Palette, mode: Mode, pairs: seq<Pair>): (cells: seq<Cell>)
    requires Complete(p)
    ensures AllReadable(cells)
  {
    seq(|pairs|, i requires 0 <= i < |pairs| => TableCell(p, mode, pairs[i]))
  }

  function ThemeCells(themes: seq<Theme>): (cells: seq<Cell>)
    requires AllComplete(themes)
    ensures AllReadable(cells)
  {
    if themes == [] then []
    else TableCells(themes[0].light, Light, PAIRS) + TableCells(themes[0].dark, Dark, PAIRS) + ThemeCells(themes[1..])
  }

  function WithoutAccent(pairs: seq<Pair>): seq<Pair> {
    if pairs == [] then []
    else
      var n := |pairs| - 1;
      WithoutAccent(pairs[..n]) + if IsAccentPair(pairs[n]) then [] else [pairs[n]]
  }

  const BUTTON_BAR := 6.995
  const LINK_BAR := 2.995

  function AccentCells(universal: Palette, themes: seq<Theme>): (cells: seq<Cell>)
    requires Complete(universal) && AllComplete(themes)
    ensures AllReadable(cells)
  {
    if themes == [] then []
    else
      var hc := themes[0].hc;
      [AccentCell(hc[PrimaryForeground], hc[Primary], BUTTON_BAR), AccentCell(hc[Primary], universal[Surface], LINK_BAR)] +
      AccentCells(universal, themes[1..])
  }

  /** Every decision of the report, in order. */
  function Cells(themes: seq<Theme>): (cells: seq<Cell>)
    requires |themes| > 0 && AllComplete(themes)
    ensures AllReadable(cells)
  {
    ThemeCells(themes) +
    TableCells(themes[0].hc, HighContrast, WithoutAccent(PAIRS)) +
    AccentCells(themes[0].hc, themes)
  }

  // ----- emission -----

  /** Rows of one part, then rows of another. */
  lemma {:induction false} RowsSplit(pow: real -> real, a: seq<Cell>, b: seq<Cell>)
    requires IsPow2_4(pow) && AllReadable(a) && AllReadable(b)
    ensures AllReadable(a + b)
    ensures Rows(pow, a + b) == if Rows(pow, a).None? then None else Prepend(Rows(pow, a).value, Rows(pow, b))
  {
    hide Judged;
    if a == [] {
      assert a + b == b;
      PrependUnits([], Rows(pow, b));
    } else {
      assert (a + b)[1..] == a[1..] + b;
      RowsSplit(pow, a[1..], b);
      if Rows(pow, a[1..]).Some? {
        PrependTwice(RowsOf(Judged(pow, a[0])), Rows(pow, a[1..]).value, Rows(pow, b));
      }
    }
  }

  /** One contrast table: the rows of the pairs not skipped. */
  method ContrastTable(pow: real -> real, p: Palette, mode: Mode, pairs: seq<Pair>) returns (rows: Option<seq<Row>>)
    requires IsPow2_4(pow) && Complete(p)
    ensures rows == Rows(pow, TableCells(p, mode, pairs))
  {
    hide HexContrast, RoundTo2, Required, TRANSPARENT;
    ghost var cells := TableCells(p, mode, pairs);
    var printed: seq<Row> := [];
    assert cells[0..] == cells;
    PrependUnits([], Rows(pow, cells));
    for k := 0 to |pairs|
      invariant Rows(pow, cells) == Prepend(printed, Rows(pow, cells[k..]))
    {
      ghost var rest := Rows(pow, cells[k + 1..]);
      assert cells[k..][1..] == cells[k + 1..];
      PrependTwice(printed, [], rest);
      assert printed + [] == printed;
      var fg, bg := p[pairs[k].fg], p[pairs[k].bg];
      if fg == TRANSPARENT || bg == TRANSPARENT {
        continue;
      }
      var ratio := HexContrast(pow, fg, bg);
      if ratio.None? {
        return None;
      }
      var row := Row(RoundTo2(ratio.value), ratio.value >= Required(mode, pairs[k].target) - TOLERANCE);
      PrependTwice(printed, [row], rest);
      printed := printed + [row];
    }
    PrependUnits(printed, None);
    rows := Some(printed);
  }

  /** The accent table, with its literal bars and no skipping. */
  method AccentTable(pow: real -> real, universal: Palette, themes: seq<Theme>) returns (rows: Option<seq<Row>>)
    requires IsPow2_4(pow) && Complete(universal) && AllComplete(themes)
    ensures rows == Rows(pow, AccentCells(universal, themes))
  {
    hide HexContrast, RoundTo2;
    var printed: seq<Row> := [];
    assert themes[0..] == themes;
    PrependUnits([], Rows(pow, AccentCells(universal, themes)));
    for i := 0 to |themes|
      invariant Rows(pow, AccentCells(universal, themes)) ==
                Prepend(printed, Rows(pow, AccentCells(universal, themes[i..])))
    {
      assert themes[i..][1..] == themes[i + 1..];
      var p, fg := themes[i].hc[Primary], themes[i].hc[PrimaryForeground];
      var button := HexContrast(pow, fg, p);
      var link := HexContrast(pow, p, universal[Surface]);
      AccentRows(pow, fg, p, universal[Surface], AccentCells(universal, themes[i + 1..]));
      if button.None? || link.None? {
        return None;
      }
      var two := [Row(RoundTo2(button.value), button.value >= BUTTON_BAR),
                  Row(RoundTo2(link.value), link.value >= LINK_BAR)];
      PrependTwice(printed, two, Rows(pow, AccentCells(universal, themes[i + 1..])));
      printed := printed + two;
    }
    PrependUnits(printed, None);
    rows := Some(printed);
  }

  lemma {:induction false} AccentRows(pow: real -> real, fg: string, p: string, surface: string, rest: seq<Cell>)
    requires IsPow2_4(pow) && AllReadable(rest)
    ensures var cells := [AccentCell(fg, p, BUTTON_BAR), AccentCell(p, surface, LINK_BAR)];
            var button, link := HexContrast(pow, fg, p), HexContrast(pow, p, surface);
            AllReadable(cells + rest) &&
            Rows(pow, cells + rest) ==
            if button.None? || link.None? then None
            else Prepend([Row(RoundTo2(button.value), button.value >= BUTTON_BAR),
                          Row(RoundTo2(link.value), link.value >= LINK_BAR)], Rows(pow, rest))
  {
    hide HexContrast, RoundTo2;
    var first, second := AccentCell(fg, p, BUTTON_BAR), AccentCell(p, surface, LINK_BAR);
    assert ([first, second] + rest)[1..] == [second] + rest;
    assert ([second] + rest)[1..] == rest;
    if !Judged(pow, first).Raises? && !Judged(pow, second).Raises? {
      var a, b := RowsOf(Judged(pow, first)), RowsOf(Judged(pow, second));
      PrependTwice(a, b, Rows(pow, rest));
      assert a + b == [a[0], b[0]];
    }
  }

  method ThemeTables(pow: real -> real, themes: seq<Theme>) returns (rows: Option<seq<Row>>)
    requires IsPow2_4(pow) && AllComplete(themes)
    ensures rows == Rows(pow, ThemeCells(themes))
  {
    hide PAIRS, TableCells, Judged;
    var printed: seq<Row> := [];
    assert themes[0..] == themes;
    PrependUnits([], Rows(pow, ThemeCells(themes)));
    for i := 0 to |themes|
      invariant Rows(pow, ThemeCells(themes)) == Prepend(printed, Rows(pow, ThemeCells(themes[i..])))
    {
      assert themes[i..][1..] == themes[i + 1..];
      ghost var light, dark := TableCells(themes[i].light, Light, PAIRS), TableCells(themes[i].dark, Dark, PAIRS);
      ghost var rest := ThemeCells(themes[i + 1..]);
      RowsSplit(pow, light, dark);
      RowsSplit(pow, light + dark, rest);
      var inLight := ContrastTable(pow, themes[i].light, Light, PAIRS);
      if inLight.None? {
        return None;
      }
      var inDark := ContrastTable(pow, themes[i].dark, Dark, PAIRS);
      if inDark.None? {
        return None;
      }
      PrependTwice(printed, inLight.value + inDark.value, Rows(pow, rest));
      printed := printed + (inLight.value + inDark.value);
    }
    PrependUnits(printed, None);
    rows := Some(printed);
  }

  /** The pairs of the universal table: `continue` on the accent labels. */
  method UniversalPairs() returns (pairs: seq<Pair>)
    ensures pairs == WithoutAccent(PAIRS)
  {
    hide PAIRS;
    pairs := [];
    for k := 0 to |PAIRS|
      invariant pairs == WithoutAccent(PAIRS[..k])
    {
      assert PAIRS[..k + 1][..k] == PAIRS[..k];
      if IsAccentPair(PAIRS[k]) {
        continue;
      }
      pairs := pairs + [PAIRS[k]];
    }
    assert PAIRS[..|PAIRS|] == PAIRS;
  }

  /** `emit_themes_md` and `emit_hc_modelayer_md`, reduced to their PASS/FAIL rows. */
  method EmitReport(pow: real -> real, themes: seq<Theme>) returns (rows: Option<seq<Row>>)
    requires IsPow2_4(pow) && |themes| > 0 && AllComplete(themes)
    ensures rows == Rows(pow, Cells(themes))
  {
    hide PAIRS;
    ghost var universalCells := TableCells(themes[0].hc, HighContrast, WithoutAccent(PAIRS));
    RowsSplit(pow, ThemeCells(themes), universalCells);
    RowsSplit(pow, ThemeCells(themes) + universalCells, AccentCells(themes[0].hc, themes));
    var perTheme := ThemeTables(pow, themes);
    if perTheme.None? {
      return None;
    }
    var pairs := UniversalPairs();
    var universal := ContrastTable(pow, themes[0].hc, HighContrast, pairs);
    if universal.None? {
      return None;
    }
    var accents := AccentTable(pow, themes[0].hc, themes);
    if accents.None? {
      return None;
    }
    rows := Some(perTheme.value + universal.value + accents.value);
  }

  // ----- agreement with verify_all -----

  /** The two outcomes that matter: raising, and failing. */
  datatype Flag = AnyRaise | AnyFail

  predicate Hits(verdict: Verdict, flag: Flag) {
    if flag.AnyRaise? then verdict.Raises? else verdict.Failing?
  }

  ghost predicate CellsHit(pow: real -> real, cells: seq<Cell>, flag: Flag)
    requires IsPow2_4(pow) && AllReadable(cells)
  {
    exists i :: 0 <= i < |cells| && Hits(Judged(pow, cells[i]), flag)
  }

  predicate AllPass(rows: seq<Row>) { forall i | 0 <= i < |rows| :: rows[i].pass }

  /** The rows say which outcomes occurred among the cells. */
  lemma {:induction false} RowsSummarise(pow: real -> real, cells: seq<Cell>)
    requires IsPow2_4(pow) && AllReadable(cells)
    ensures Rows(pow, cells).None? <==> CellsHit(pow, cells, AnyRaise)
    ensures Rows(pow, cells).Some? ==> (AllPass(Rows(pow, cells).value) <==> !CellsHit(pow, cells, AnyFail))
  {
    hide Judged;
    if cells != [] {
      var rest := cells[1..];
      RowsSummarise(pow, rest);
      CellsHitSplit(pow, [cells[0]], rest, AnyRaise);
      CellsHitSplit(pow, [cells[0]], rest, AnyFail);
      assert [cells[0]] + rest == cells;
      assert forall flag :: CellsHit(pow, [cells[0]], flag) <==> Hits(Judged(pow, [cells[0]][0]), flag);
      if Rows(pow, cells).Some? {
        PassSplits(RowsOf(Judged(pow, cells[0])), Rows(pow, rest).value);
        PassOfOne(Judged(pow, cells[0]));
      }
    }
  }

  lemma PassOfOne(verdict: Verdict)
    ensures AllPass(RowsOf(verdict)) <==> !verdict.Failing?
  {
    assert verdict.Failing? ==> !RowsOf(verdict)[0].pass;
  }

  lemma PassSplits(a: seq<Row>, b: seq<Row>)
    ensures AllPass(a + b) <==> AllPass(a) && AllPass(b)
  {
    if AllPass(a + b) {
      forall i | 0 <= i < |a| ensures a[i].pass { assert (a + b)[i] == a[i]; }
      forall i | 0 <= i < |b| ensures b[i].pass { assert (a + b)[|a| + i] == b[i]; }
    }
  }

  lemma CellsHitSplit(pow: real -> real, a: seq<Cell>, b: seq<Cell>, flag: Flag)
    requires IsPow2_4(pow) && AllReadable(a) && AllReadable(b)
    ensures AllReadable(a + b)
    ensures CellsHit(pow, a + b, flag) <==> CellsHit(pow, a, flag) || CellsHit(pow, b, flag)
  {
    hide Judged;
    if CellsHit(pow, a, flag) {
      var i :| 0 <= i < |a| && Hits(Judged(pow, a[i]), flag);
      assert (a + b)[i] == a[i];
    }
    if CellsHit(pow, b, flag) {
      var i :| 0 <= i < |b| && Hits(Judged(pow, b[i]), flag);
      assert (a + b)[|a| + i] == b[i];
    }
  }

  /** Some pair of a list has the outcome on this palette. */
  ghost predicate PairsHit(pow: real -> real, p: Palette, mode: Mode, pairs: seq<Pair>, flag: Flag)
    requires IsPow2_4(pow) && Complete(p)
  {
    exists pair :: pair in pairs && Hits(Judge(pow, p, mode, pair), flag)
  }

  lemma TableHits(pow: real -> real, p: Palette, mode: Mode, pairs: seq<Pair>, flag: Flag)
    requires IsPow2_4(pow) && Complete(p)
    ensures CellsHit(pow, TableCells(p, mode, pairs), flag) <==> PairsHit(pow, p, mode, pairs, flag)
  {
    hide Judge;
    var cells := TableCells(p, mode, pairs);
    if pair :| pair in pairs && Hits(Judge(pow, p, mode, pair), flag) {
      var i :| 0 <= i < |pairs| && pairs[i] == pair;
      assert Hits(Judged(pow, cells[i]), flag);
    }
  }

  /** The two decisions of one row of the accent table. */
  ghost predicate AccentHits(pow: real -> real, universal: Palette, hc: Palette, flag: Flag)
    requires IsPow2_4(pow) && Complete(universal) && Complete(hc)
  {
    || Hits(Measure(pow, hc[PrimaryForeground], hc[Primary], BUTTON_BAR), flag)
    || Hits(Measure(pow, hc[Primary], universal[Surface], LINK_BAR), flag)
  }

  lemma {:induction false} ThemeCellsHit(pow: real -> real, themes: seq<Theme>, flag: Flag)
    requires IsPow2_4(pow) && AllComplete(themes)
    ensures CellsHit(pow, ThemeCells(themes), flag) <==>
            exists i :: 0 <= i < |themes| && (PairsHit(pow, themes[i].light, Light, PAIRS, flag) ||
                                              PairsHit(pow, themes[i].dark, Dark, PAIRS, flag))
  {
    hide PAIRS, Judged, TableCells, PairsHit;
    if themes != [] {
      var light, dark := TableCells(themes[0].light, Light, PAIRS), TableCells(themes[0].dark, Dark, PAIRS);
      TableHits(pow, themes[0].light, Light, PAIRS, flag);
      TableHits(pow, themes[0].dark, Dark, PAIRS, flag);
      CellsHitSplit(pow, light, dark, flag);
      CellsHitSplit(pow, light + dark, ThemeCells(themes[1..]), flag);
      ThemeCellsHit(pow, themes[1..], flag);
      assert forall i | 0 < i < |themes| :: themes[i] == themes[1..][i - 1];
    }
  }

  lemma {:induction false} AccentCellsHit(pow: real -> real, universal: Palette, themes: seq<Theme>, flag: Flag)
    requires IsPow2_4(pow) && Complete(universal) && AllComplete(themes)
    ensures CellsHit(pow, AccentCells(universal, themes), flag) <==>
            exists i :: 0 <= i < |themes| && AccentHits(pow, universal, themes[i].hc, flag)
  {
    hide Measure;
    if themes != [] {
      var hc := themes[0].hc;
      var two := [AccentCell(hc[PrimaryForeground], hc[Primary], BUTTON_BAR),
                  AccentCell(hc[Primary], universal[Surface], LINK_BAR)];
      CellsHitSplit(pow, two, AccentCells(universal, themes[1..]), flag);
      AccentCellsHit(pow, universal, themes[1..], flag);
      assert CellsHit(pow, two, flag) <==> Hits(Judged(pow, two[0]), flag) || Hits(Judged(pow, two[1]), flag);
      assert forall i | 0 < i < |themes| :: themes[i] == themes[1..][i - 1];
    }
  }

  lemma ReportHits(pow: real -> real, themes: seq<Theme>, flag: Flag)
    requires IsPow2_4(pow) && |themes| > 0 && AllComplete(themes)
    ensures CellsHit(pow, Cells(themes), flag) <==>
            || (exists i :: 0 <= i < |themes| && (PairsHit(pow, themes[i].light, Light, PAIRS, flag) ||
                                                  PairsHit(pow, themes[i].dark, Dark, PAIRS, flag)))
            || PairsHit(pow, themes[0].hc, HighContrast, WithoutAccent(PAIRS), flag)
            || (exists i :: 0 <= i < |themes| && AccentHits(pow, themes[0].hc, themes[i].hc, flag))
  {
    hide PAIRS, Judged, PairsHit, AccentHits, WithoutAccent;
    var universal := TableCells(themes[0].hc, HighContrast, WithoutAccent(PAIRS));
    CellsHitSplit(pow, ThemeCells(themes), universal, flag);
    CellsHitSplit(pow, ThemeCells(themes) + universal, AccentCells(themes[0].hc, themes), flag);
    ThemeCellsHit(pow, themes, flag);
    TableHits(pow, themes[0].hc, HighContrast, WithoutAccent(PAIRS), flag);
    AccentCellsHit(pow, themes[0].hc, themes, flag);
  }

  lemma {:induction false} WithoutAccentKeepsTheRest(pairs: seq<Pair>, pair: Pair)
    ensures pair in WithoutAccent(pairs) <==> pair in pairs && !IsAccentPair(pair)
  {
    if pairs != [] {
      var n := |pairs| - 1;
      WithoutAccentKeepsTheRest(pairs[..n], pair);
      assert pairs == pairs[..n] + [pairs[n]];
    }
  }

  /** The universal pairs name no accent token, and the accent pairs are among the critical ones. */
  lemma UniversalPairsNameNoAccent(pair: Pair)
    requires pair in PAIRS
    ensures IsAccentPair(pair) || (!IsAccent(pair.fg) && !IsAccent(pair.bg))
    ensures BUTTON_PAIR in PAIRS && LINK_PAIR in PAIRS
  {
    var i :| 0 <= i < |PAIRS| && PAIRS[i] == pair;
    assert PAIRS[4] == BUTTON_PAIR && PAIRS[15] == LINK_PAIR;
  }

  /** A colour of a theme's accent row is transparent. */
  predicate TransparentAccent(universal: Palette, hc: Palette)
    requires Complete(universal) && Complete(hc)
  {
    hc[Primary] == TRANSPARENT || hc[PrimaryForeground] == TRANSPARENT || universal[Surface] == TRANSPARENT
  }

  /** `verify_all` on one theme's accent pairs: as the report's accent row, but skipping transparent colours. */
  lemma AccentPairsJudged(pow: real -> real, universal: Palette, hc: Palette)
    requires IsPow2_4(pow) && Complete(universal) && Complete(hc)
    requires hc == Layered(universal, hc)
    ensures Judge(pow, hc, HighContrast, BUTTON_PAIR) ==
            if hc[PrimaryForeground] == TRANSPARENT || hc[Primary] == TRANSPARENT then Skipped
            else Measure(pow, hc[PrimaryForeground], hc[Primary], BUTTON_BAR)
    ensures Judge(pow, hc, HighContrast, LINK_PAIR) ==
            if hc[Primary] == TRANSPARENT || universal[Surface] == TRANSPARENT then Skipped
            else Measure(pow, hc[Primary], universal[Surface], LINK_BAR)
  {
    hide PAIRS, Measure;
    assert hc[Surface] == universal[Surface];
  }

  lemma AccentPairsHit(pow: real -> real, universal: Palette, hc: Palette, flag: Flag)
    requires IsPow2_4(pow) && Complete(universal) && Complete(hc)
    requires hc == Layered(universal, hc)
    ensures AccentHits(pow, universal, hc, flag) <==>
            || Hits(Judge(pow, hc, HighContrast, BUTTON_PAIR), flag)
            || Hits(Judge(pow, hc, HighContrast, LINK_PAIR), flag)
            || (flag.AnyRaise? && TransparentAccent(universal, hc))
  {
    hide PAIRS, Measure, Layered, BUTTON_PAIR, LINK_PAIR, Judge;
    AccentPairsJudged(pow, universal, hc);
    TransparentMeasures(pow, hc[PrimaryForeground], hc[Primary], BUTTON_BAR);
    TransparentMeasures(pow, hc[Primary], universal[Surface], LINK_BAR);
  }

  /** One theme's high-contrast pairs are the universal ones plus its accent row, up to transparency. */
  lemma HighContrastSplits(pow: real -> real, universal: Palette, hc: Palette, flag: Flag)
    requires IsPow2_4(pow) && Complete(universal) && Complete(hc)
    requires hc == Layered(universal, hc)
    ensures PairsHit(pow, universal, HighContrast, WithoutAccent(PAIRS), flag) ||
            AccentHits(pow, universal, hc, flag) <==>
            PairsHit(pow, hc, HighContrast, PAIRS, flag) ||
            (flag.AnyRaise? && TransparentAccent(universal, hc))
  {
    hide PAIRS, PairsHit, AccentHits, Layered, TransparentAccent, Judge;
    AccentPairsHit(pow, universal, hc, flag);
    UniversalHits(pow, universal, hc, flag);
  }

  lemma TransparentMeasures(pow: real -> real, fg: string, bg: string, bar: real)
    requires IsPow2_4(pow)
    ensures fg == TRANSPARENT || bg == TRANSPARENT ==> Measure(pow, fg, bg, bar).Raises?
  {
    TransparentIsUnreadable();
  }

  lemma UniversalHits(pow: real -> real, universal: Palette, hc: Palette, flag: Flag)
    requires IsPow2_4(pow) && Complete(universal) && Complete(hc)
    requires hc == Layered(universal, hc)
    ensures PairsHit(pow, hc, HighContrast, PAIRS, flag) <==>
            || PairsHit(pow, universal, HighContrast, WithoutAccent(PAIRS), flag)
            || Hits(Judge(pow, hc, HighContrast, BUTTON_PAIR), flag)
            || Hits(Judge(pow, hc, HighContrast, LINK_PAIR), flag)
  {
    hide PAIRS, Measure, WithoutAccent;
    forall pair | pair in PAIRS
      ensures pair in WithoutAccent(PAIRS) <==> !IsAccentPair(pair)
      ensures !IsAccentPair(pair) ==> Judge(pow, hc, HighContrast, pair) == Judge(pow, universal, HighContrast, pair)
    {
      WithoutAccentKeepsTheRest(PAIRS, pair);
      UniversalPairsNameNoAccent(pair);
    }
    forall pair ensures pair in WithoutAccent(PAIRS) ==> pair in PAIRS {
      WithoutAccentKeepsTheRest(PAIRS, pair);
    }
    ButtonAndLinkAreCritical();
    hide Judge;
  }

  lemma ButtonAndLinkAreCritical()
    ensures BUTTON_PAIR in PAIRS && LINK_PAIR in PAIRS
  {
    assert PAIRS[4] == BUTTON_PAIR && PAIRS[15] == LINK_PAIR;
  }

  /** `verify_all`'s own outcomes. */
  ghost predicate VerifierHits(pow: real -> real, themes: seq<Theme>, flag: Flag)
    requires IsPow2_4(pow) && AllComplete(themes)
  {
    exists i, mode :: 0 <= i < |themes| && PairsHit(pow, PaletteOf(themes[i], mode), mode, PAIRS, flag)
  }

  lemma {:induction false} VerifierSummary(pow: real -> real, themes: seq<Theme>)
    requires IsPow2_4(pow) && AllComplete(themes)
    ensures Problems(pow, themes).None? <==> VerifierHits(pow, themes, AnyRaise)
    ensures Problems(pow, themes).Some? ==> (Problems(pow, themes).value == [] <==> !VerifierHits(pow, themes, AnyFail))
  {
    hide PAIRS, Judge;
    forall x: Problem { ProblemsAreFailures(pow, themes, x); }
    var found := Problems(pow, themes);
    if found.Some? && found.value != [] {
      var x := found.value[0];
      assert x in found.value;
      var i :| 0 <= i < |themes| && Reported(pow, themes[i], x);
      assert PairsHit(pow, PaletteOf(themes[i], x.mode), x.mode, PAIRS, AnyFail);
    }
    if found.Some? && VerifierHits(pow, themes, AnyFail) {
      var i, mode :| 0 <= i < |themes| && PairsHit(pow, PaletteOf(themes[i], mode), mode, PAIRS, AnyFail);
      var p := PaletteOf(themes[i], mode);
      var pair :| pair in PAIRS && Hits(Judge(pow, p, mode, pair), AnyFail);
      var x := ProblemOf(themes[i].name, p, mode, pair, Judge(pow, p, mode, pair).ratio);
      assert Reported(pow, themes[i], x);
      assert x in found.value;
    }
    ProblemsAreFailures(pow, themes, Problem("", Light, BUTTON_PAIR, 0.0, 0.0, "", ""));
  }

  /**
   The report and the verifier agree.  The report is produced exactly when `verify_all` does not
   raise and no theme's accent row has a transparent colour, which `verify_all` would skip; and
   when it is produced it shows no FAIL exactly when `verify_all` found no problem.
   */
  lemma {:induction false} ReportAgreesWithVerifier(pow: real -> real, themes: seq<Theme>)
    requires IsPow2_4(pow) && |themes| > 0 && AllComplete(themes) && Rebuilt(themes)
    ensures Rows(pow, Cells(themes)).None? <==>
            || Problems(pow, themes).None?
            || exists i :: 0 <= i < |themes| && TransparentAccent(themes[0].hc, themes[i].hc)
    ensures Rows(pow, Cells(themes)).Some? ==>
            Problems(pow, themes).Some? &&
            (AllPass(Rows(pow, Cells(themes)).value) <==> Problems(pow, themes).value == [])
  {
    hide Cells, Rows, Problems, PairsHit, AccentHits, WithoutAccent, PAIRS;
    RowsSummarise(pow, Cells(themes));
    VerifierSummary(pow, themes);
    forall flag
      ensures CellsHit(pow, Cells(themes), flag) <==>
              || VerifierHits(pow, themes, flag)
              || (flag.AnyRaise? && exists i :: 0 <= i < |themes| && TransparentAccent(themes[0].hc, themes[i].hc))
    {
      OutcomesAgree(pow, themes, flag);
    }
  }

  const BLACK_HEX := "#000000"

  function Blacks(): (p: Palette)
    ensures Complete(p) && forall k: Key :: p[k] == BLACK_HEX
  {
    assert forall k: Key :: k in COLOR_KEYS by {
      forall k: Key { KeyLists(k); }
    }
    map k | k in COLOR_KEYS :: BLACK_HEX
  }

  /** A theme with every colour readable but the high-contrast foreground of its primary button, which is transparent. */
  function Transparent(): (themes: seq<Theme>)
    ensures |themes| == 1 && WellFormed(themes)
  {
    [Theme(DEFAULT_THEME, Blacks(), Blacks(), Blacks()[PrimaryForeground := TRANSPARENT])]
  }

  lemma NothingRaisesOnTransparent(pow: real -> real, p: Palette, mode: Mode, pair: Pair)
    requires IsPow2_4(pow) && Complete(p) && forall k: Key :: p[k] == BLACK_HEX || p[k] == TRANSPARENT
    ensures !Judge(pow, p, mode, pair).Raises?
  {
    ExtremesAreRead();
    hide HexToRgb;
  }

  /** On that table `verify_all` returns, and the report raises. */
  lemma TransparentAccentStopsTheReport(pow: real -> real)
    requires IsPow2_4(pow)
    ensures Rebuilt(Transparent())
    ensures Problems(pow, Transparent()).Some?
    ensures Rows(pow, Cells(Transparent())).None?
  {
    hide COLOR_KEYS, PAIRS, Problems, Rows, Cells, Judge, BLACK_HEX, TRANSPARENT, Blacks;
    var themes := Transparent();
    LayeredIsStable(themes[0].hc, themes[0].hc);
    forall mode, pair ensures !Judge(pow, PaletteOf(themes[0], mode), mode, pair).Raises? {
      NothingRaisesOnTransparent(pow, PaletteOf(themes[0], mode), mode, pair);
    }
    ProblemsAreFailures(pow, themes, Problem("", Light, BUTTON_PAIR, 0.0, 0.0, "", ""));
    assert TransparentAccent(themes[0].hc, themes[0].hc);
    ReportAgreesWithVerifier(pow, themes);
  }

  lemma OutcomesAgree(pow: real -> real, themes: seq<Theme>, flag: Flag)
    requires IsPow2_4(pow) && |themes| > 0 && AllComplete(themes) && Rebuilt(themes)
    ensures CellsHit(pow, Cells(themes), flag) <==>
            || VerifierHits(pow, themes, flag)
            || (flag.AnyRaise? && exists i :: 0 <= i < |themes| && TransparentAccent(themes[0].hc, themes[i].hc))
  {
    hide Cells, CellsHit, PairsHit, AccentHits, WithoutAccent, PAIRS, TransparentAccent;
    ReportHits(pow, themes, flag);
    forall i | 0 <= i < |themes|
      ensures PairsHit(pow, themes[0].hc, HighContrast, WithoutAccent(PAIRS), flag) ||
              AccentHits(pow, themes[0].hc, themes[i].hc, flag) <==>
              PairsHit(pow, themes[i].hc, HighContrast, PAIRS, flag) ||
              (flag.AnyRaise? && TransparentAccent(themes[0].hc, themes[i].hc))
    {
      HighContrastSplits(pow, themes[0].hc, themes[i].hc, flag);
    }
    VerifierByMode(pow, themes, flag);
    if i :| 0 <= i < |themes| && AccentHits(pow, themes[0].hc, themes[i].hc, flag) {
      assert PairsHit(pow, themes[i].hc, HighContrast, PAIRS, flag) ||
             (flag.AnyRaise? && TransparentAccent(themes[0].hc, themes[i].hc));
    }
    if i :| 0 <= i < |themes| && PairsHit(pow, themes[i].hc, HighContrast, PAIRS, flag) {
      assert PairsHit(pow, themes[0].hc, HighContrast, WithoutAccent(PAIRS), flag) ||
             AccentHits(pow, themes[0].hc, themes[i].hc, flag);
    }
    if i :| 0 <= i < |themes| && flag.AnyRaise? && TransparentAccent(themes[0].hc, themes[i].hc) {
      assert PairsHit(pow, themes[0].hc, HighContrast, WithoutAccent(PAIRS), flag) ||
             AccentHits(pow, themes[0].hc, themes[i].hc, flag);
    }
  }

  lemma VerifierByMode(pow: real -> real, themes: seq<Theme>, flag: Flag)
    requires IsPow2_4(pow) && AllComplete(themes)
    ensures VerifierHits(pow, themes, flag) <==>
            || (exists i :: 0 <= i < |themes| && (PairsHit(pow, themes[i].light, Light, PAIRS, flag) ||
                                                  PairsHit(pow, themes[i].dark, Dark, PAIRS, flag)))
            || (exists i :: 0 <= i < |themes| && PairsHit(pow, themes[i].hc, HighContrast, PAIRS, flag))
  {
    hide PairsHit, PAIRS;
    forall i | 0 <= i < |themes|
      ensures PaletteOf(themes[i], Light) == themes[i].light
      ensures PaletteOf(themes[i], Dark) == themes[i].dark
      ensures PaletteOf(themes[i], HighContrast) == themes[i].hc
    {
    }
    if i, mode :| 0 <= i < |themes| && PairsHit(pow, PaletteOf(themes[i], mode), mode, PAIRS, flag) {
      match mode case Light => case Dark => case HighContrast =>
    }
  }

  // ----- the printed number -----

  /** The tolerance is exactly the rounding: a pair passes iff the two-decimal ratio shown reaches its target. */
  lemma VerdictMatchesShownRatio(ratio: real, mode: Mode, target: Target)
    ensures ratio >= Required(mode, target) - TOLERANCE <==> RoundTo2(ratio) >= Required(mode, target)
  {
    var bar := if Required(mode, target) == 4.5 then 450 else if Required(mode, target) == 7.0 then 700 else 300;
    var x := ratio * 100.0;
    assert Required(mode, target) * 100.0 == bar as real;
    assert bar % 2 == 0;
    assert x >= bar as real - 0.5 <==> RoundHalfEven(x) >= bar;
  }
}
