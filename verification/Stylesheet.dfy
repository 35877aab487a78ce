/**
 The token-sheet compiler of build.py: from a table of themes to the rule list of tokens.css.
 Themes, palettes and fonts are arbitrary; only the rules, not the surrounding comments, are modelled.
 */
module Stylesheet {
  import opened Wrappers
  import opened Tokens
  import opened Cascade

  /** The custom properties of the sheet. */
  datatype Property =
    | Color(key: Key)
    | FontPortal
    | RadiusControl | RadiusCard | RadiusSm
    | SpaceControlH | SpaceControlPadX | SpaceFieldGap | SpaceSectionPad | SpaceStack
  {
    predicate IsRadius() { RadiusControl? || RadiusCard? || RadiusSm? }

    predicate IsSpace() { SpaceControlH? || SpaceControlPadX? || SpaceFieldGap? || SpaceSectionPad? || SpaceStack? }
  }

  type TokenRule = Rule<Property>

  /** One entry of THEMES. */
  datatype Theme = Theme(name: string, light: Palette, dark: Palette, hc: Palette)

  datatype Font = Font(key: string, family: string, group: string)

  const DEFAULT_THEME := "slate"

  predicate Complete(p: Palette) { forall k: Key :: k in p }

  /**
   What the table must satisfy: the default theme comes first, the names are distinct, and every
   palette has every key (the script raises a KeyError otherwise).
   */
  ghost predicate WellFormed(themes: seq<Theme>) {
    && |themes| > 0
    && themes[0].name == DEFAULT_THEME
    && DistinctNames(themes)
    && forall i | 0 <= i < |themes| :: Complete(themes[i].light) && Complete(themes[i].dark) && Complete(themes[i].hc)
  }

  ghost predicate DistinctNames(themes: seq<Theme>) {
    forall i, j | 0 <= i < j < |themes| :: themes[i].name != themes[j].name
  }

  ghost predicate AllComplete(themes: seq<Theme>) {
    forall i | 0 <= i < |themes| :: Complete(themes[i].light) && Complete(themes[i].dark) && Complete(themes[i].hc)
  }

  // ----- the high-contrast layer -----

  /** `HC_ACCENTS[theme]`: the four primary tokens of the authored palette. */
  function Accent(hc: Palette): Palette
    requires Complete(hc)
  {
    map k | k in HC_ACCENT_KEYS :: hc[k]
  }

  /** A theme's rebuilt high-contrast palette: the universal one with the theme's accent over it. */
  function Layered(universal: Palette, hc: Palette): (p: Palette)
    requires Complete(universal) && Complete(hc)
    ensures Complete(p)
    ensures forall k: Key :: p[k] == if IsAccent(k) then hc[k] else universal[k]
  {
    assert forall k: Key :: k in HC_ACCENT_KEYS <==> IsAccent(k) by {
      forall k: Key { KeyLists(k); }
    }
    universal + Accent(hc)
  }

  /** The loop that replaces every authored `hc` palette; the first theme's is the universal one. */
  method RebuildHighContrast(authored: seq<Theme>) returns (themes: seq<Theme>)
    requires WellFormed(authored)
    ensures |themes| == |authored|
    ensures forall i | 0 <= i < |themes| ::
              themes[i] == authored[i].(hc := Layered(authored[0].hc, authored[i].hc))
    ensures WellFormed(themes)
  {
    themes := authored;
    for i := 0 to |authored|
      invariant |themes| == |authored|
      invariant forall j | 0 <= j < i :: themes[j] == authored[j].(hc := Layered(authored[0].hc, authored[j].hc))
      invariant forall j | i <= j < |themes| :: themes[j] == authored[j]
    {
      themes := themes[i := themes[i].(hc := Layered(authored[0].hc, authored[i].hc))];
    }
  }

  /** What that loop leaves behind: all palettes are the universal one outside the accent. */
  ghost predicate Rebuilt(themes: seq<Theme>)
    requires |themes| > 0 && AllComplete(themes)
  {
    forall i | 0 <= i < |themes| :: themes[i].hc == Layered(themes[0].hc, themes[i].hc)
  }

  /** What a layered palette holds, key by key. */
  lemma LayeredIsPointwise(universal: Palette, hc: Palette, p: Palette)
    requires Complete(universal) && Complete(hc) && Complete(p)
    requires forall k: Key :: p[k] == if IsAccent(k) then hc[k] else universal[k]
    ensures p == Layered(universal, hc)
  {
    hide COLOR_KEYS, HC_ACCENT_KEYS, IsAccent;
    var q := Layered(universal, hc);
    assert forall k: Key :: k in p && k in q && p[k] == q[k];
  }

  lemma AccentIsPointwise(p: Palette, q: Palette)
    requires Complete(p) && Complete(q) && (forall k: Key | IsAccent(k) :: p[k] == q[k])
    ensures Accent(p) == Accent(q)
  {
    forall k: Key ensures k in HC_ACCENT_KEYS <==> IsAccent(k) { KeyLists(k); }
    hide HC_ACCENT_KEYS, COLOR_KEYS, IsAccent;
  }

  /** Layering twice changes nothing more, and keeps the accent. */
  lemma LayeredIsStable(universal: Palette, hc: Palette)
    requires Complete(universal) && Complete(hc)
    ensures Layered(universal, Layered(universal, hc)) == Layered(universal, hc)
    ensures Accent(Layered(universal, hc)) == Accent(hc)
    ensures Layered(universal, universal) == universal
  {
    hide COLOR_KEYS, HC_ACCENT_KEYS, IsAccent, Layered, Accent;
    LayeredIsPointwise(universal, Layered(universal, hc), Layered(universal, hc));
    LayeredIsPointwise(universal, universal, universal);
    AccentIsPointwise(Layered(universal, hc), hc);
  }

  /** The rebuild reaches a table it would not change again, and keeps the universal palette and the accents. */
  lemma RebuildIsStable(authored: seq<Theme>, themes: seq<Theme>)
    requires WellFormed(authored)
    requires |themes| == |authored|
    requires forall i | 0 <= i < |themes| ::
               themes[i] == authored[i].(hc := Layered(authored[0].hc, authored[i].hc))
    ensures WellFormed(themes) && Rebuilt(themes)
    ensures themes[0].hc == authored[0].hc
    ensures forall i | 0 <= i < |themes| :: Accent(themes[i].hc) == Accent(authored[i].hc)
  {
    var universal := authored[0].hc;
    LayeredIsStable(universal, universal);
    forall i | 0 <= i < |themes|
      ensures themes[i].hc == Layered(universal, themes[i].hc)
      ensures Accent(themes[i].hc) == Accent(authored[i].hc)
    {
      LayeredIsStable(universal, authored[i].hc);
    }
  }

  // ----- emission -----

  function ModeClass(mode: Mode): Option<string> {
    match mode
    case Light => None
    case Dark => Some("dark")
    case HighContrast => Some("hc")
  }

  function SelectorFor(name: string, mode: Mode): Selector {
    Selector(if name == DEFAULT_THEME then None else Some(name), ModeClass(mode))
  }

  const FONT_PORTAL := "ui-sans-serif, system-ui, -apple-system, \"Segoe UI\", Roboto, sans-serif"

  function Block(keys: seq<Key>, p: Palette): seq<Declaration<Property>>
    requires Complete(p)
  {
    seq(|keys|, i requires 0 <= i < |keys| => Declaration(Color(keys[i]), p[keys[i]]))
  }

  /** `css_block`: the colour keys, and in light mode the font stack as well. */
  method CssBlock(theme: Theme, mode: Mode) returns (rule: TokenRule)
    requires !mode.HighContrast?
    requires Complete(theme.light) && Complete(theme.dark)
    ensures rule == ModeRule(theme, mode)
  {
    hide COLOR_KEYS, SelectorFor;
    var palette := if mode.Light? then theme.light else theme.dark;
    var lines: seq<Declaration<Property>> := [];
    for i := 0 to |COLOR_KEYS|
      invariant lines == Block(COLOR_KEYS[..i], palette)
    {
      assert COLOR_KEYS[..i + 1] == COLOR_KEYS[..i] + [COLOR_KEYS[i]];
      lines := lines + [Declaration(Color(COLOR_KEYS[i]), palette[COLOR_KEYS[i]])];
    }
    assert COLOR_KEYS[..|COLOR_KEYS|] == COLOR_KEYS;
    if mode.Light? {
      lines := lines + [Declaration(FontPortal, FONT_PORTAL)];
    }
    rule := Rule(SelectorFor(theme.name, mode), lines);
  }

  function ModeRule(theme: Theme, mode: Mode): TokenRule
    requires !mode.HighContrast?
    requires Complete(theme.light) && Complete(theme.dark)
  {
    Rule(SelectorFor(theme.name, mode),
         if mode.Light? then Block(COLOR_KEYS, theme.light) + [Declaration(FontPortal, FONT_PORTAL)]
         else Block(COLOR_KEYS, theme.dark))
  }

  /** The light and dark blocks, theme by theme. */
  function ThemeRules(themes: seq<Theme>): seq<TokenRule>
    requires AllComplete(themes)
  {
    if themes == [] then []
    else ThemeRules(themes[..|themes| - 1]) +
         [ModeRule(themes[|themes| - 1], Light), ModeRule(themes[|themes| - 1], Dark)]
  }

  function UniversalRule(universal: Palette): TokenRule
    requires Complete(universal)
  {
    Rule(Selector(None, Some("hc")), Block(COLOR_KEYS, universal))
  }

  function AccentRule(theme: Theme): TokenRule
    requires Complete(theme.hc)
  {
    Rule(Selector(Some(theme.name), Some("hc")), Block(HC_ACCENT_KEYS, theme.hc))
  }

  /** The accent overrides of the alternate themes. */
  function AccentRules(themes: seq<Theme>): seq<TokenRule>
    requires AllComplete(themes)
  {
    seq(|themes|, i requires 0 <= i < |themes| => AccentRule(themes[i]))
  }

  const SERIF_KEYS := {"merriweather", "lora", "ptserif", "librebaskerville", "ibmplexserif"}

  function FontStack(f: Font): string {
    "\"" + f.family + "\", " +
    (if f.key in SERIF_KEYS then "Georgia, \"Times New Roman\", serif" else "ui-sans-serif, system-ui, sans-serif")
  }

  function FontClass(key: string): string { "font-" + key }

  function FontRule(f: Font): TokenRule {
    Rule(Selector(None, Some(FontClass(f.key))), [Declaration(FontPortal, FontStack(f))])
  }

  /** The fonts of one group, in registry order. */
  function InGroup(fonts: seq<Font>, group: string): seq<Font> {
    if fonts == [] then []
    else InGroup(fonts[..|fonts| - 1], group) +
         (if fonts[|fonts| - 1].group == group then [fonts[|fonts| - 1]] else [])
  }

  /** The fonts in emission order: group by group. */
  function Grouped(fonts: seq<Font>, groups: seq<string>): seq<Font> {
    if groups == [] then []
    else Grouped(fonts, groups[..|groups| - 1]) + InGroup(fonts, groups[|groups| - 1])
  }

  function FontRules(fonts: seq<Font>): seq<TokenRule> {
    seq(|fonts|, i requires 0 <= i < |fonts| => FontRule(fonts[i]))
  }

  datatype Corners = Sharp | Subtle | Rounded | Pill

  datatype Density = Compact | Comfortable | Spacious

  /** The class that selects a value of an axis; the default value is the absence of a class. */
  function CornersClass(c: Corners): Option<string> {
    match c
    case Sharp => Some("radius-sharp")
    case Subtle => None
    case Rounded => Some("radius-rounded")
    case Pill => Some("radius-pill")
  }

  function DensityClass(d: Density): Option<string> {
    match d
    case Compact => Some("density-compact")
    case Comfortable => None
    case Spacious => Some("density-spacious")
  }

  function RadiusBlock(control: string, card: string, sm: string): seq<Declaration<Property>> {
    [Declaration(RadiusControl, control), Declaration(RadiusCard, card), Declaration(RadiusSm, sm)]
  }

  function CornersRule(c: Corners): TokenRule {
    Rule(Selector(None, CornersClass(c)),
         match c
         case Subtle => RadiusBlock("6px", "10px", "4px")
         case Sharp => RadiusBlock("0", "0", "0")
         case Rounded => RadiusBlock("10px", "16px", "6px")
         case Pill => RadiusBlock("999px", "20px", "8px"))
  }

  function SpaceBlock(h: string, padX: string, gap: string, section: string, stack: string)
    : seq<Declaration<Property>>
  {
    [Declaration(SpaceControlH, h), Declaration(SpaceControlPadX, padX), Declaration(SpaceFieldGap, gap),
     Declaration(SpaceSectionPad, section), Declaration(SpaceStack, stack)]
  }

  function DensityRule(d: Density): TokenRule {
    Rule(Selector(None, DensityClass(d)),
         match d
         case Comfortable => SpaceBlock("44px", "0.9rem", "2em", "2.25rem", "0.5rem")
         case Compact => SpaceBlock("36px", "0.6rem", "1.3em", "1.5rem", "0.35rem")
         case Spacious => SpaceBlock("52px", "1.1rem", "2.5em", "2.9rem", "0.7rem"))
  }

  const CORNERS_RULES: seq<TokenRule> :=
    [CornersRule(Subtle)] + [CornersRule(Sharp), CornersRule(Rounded), CornersRule(Pill)]

  const DENSITY_RULES: seq<TokenRule> :=
    [DensityRule(Comfortable)] + [DensityRule(Compact), DensityRule(Spacious)]

  /** The whole of tokens.css, rule by rule. */
  function Sheet(themes: seq<Theme>, fonts: seq<Font>, groups: seq<string>): seq<TokenRule>
    requires |themes| > 0 && AllComplete(themes)
  {
    ThemeRules(themes) + [UniversalRule(themes[0].hc)] + AccentRules(themes[1..]) +
    FontRules(Grouped(fonts, groups)) + CORNERS_RULES + DENSITY_RULES
  }

  /** `emit_tokens_css`: the loops that append the rules. */
  method EmitTokensCss(themes: seq<Theme>, fonts: seq<Font>, groups: seq<string>) returns (out: seq<TokenRule>)
    requires WellFormed(themes)
    ensures out == Sheet(themes, fonts, groups)
  {
    var modeRules := EmitThemes(themes);
    var accentRules := EmitAccents(themes[1..]);
    var fontRules := EmitFonts(fonts, groups);
    out := modeRules + [UniversalRule(themes[0].hc)] + accentRules + fontRules + CORNERS_RULES + DENSITY_RULES;
  }

  method EmitAccents(alternates: seq<Theme>) returns (out: seq<TokenRule>)
    requires AllComplete(alternates)
    ensures out == AccentRules(alternates)
  {
    out := [];
    for i := 0 to |alternates|
      invariant out == AccentRules(alternates[..i])
    {
      assert alternates[..i + 1] == alternates[..i] + [alternates[i]];
      out := out + [AccentRule(alternates[i])];
    }
    assert alternates[..|alternates|] == alternates;
  }

  method EmitThemes(themes: seq<Theme>) returns (out: seq<TokenRule>)
    requires AllComplete(themes)
    ensures out == ThemeRules(themes)
  {
    out := [];
    for i := 0 to |themes|
      invariant out == ThemeRules(themes[..i])
    {
      var light := CssBlock(themes[i], Light);
      var dark := CssBlock(themes[i], Dark);
      assert themes[..i + 1][..i] == themes[..i];
      out := out + [light, dark];
    }
    assert themes[..|themes|] == themes;
  }

  lemma FontRulesOfConcat(a: seq<Font>, b: seq<Font>)
    ensures FontRules(a + b) == FontRules(a) + FontRules(b)
  {
  }

  method EmitGroup(fonts: seq<Font>, group: string) returns (out: seq<TokenRule>)
    ensures out == FontRules(InGroup(fonts, group))
  {
    hide FontRule;
    out := [];
    for f := 0 to |fonts|
      invariant out == FontRules(InGroup(fonts[..f], group))
    {
      assert fonts[..f + 1][..f] == fonts[..f];
      FontRulesOfConcat(InGroup(fonts[..f], group), [fonts[f]]);
      if fonts[f].group == group {
        out := out + [FontRule(fonts[f])];
      }
    }
    assert fonts[..|fonts|] == fonts;
  }

  method EmitFonts(fonts: seq<Font>, groups: seq<string>) returns (out: seq<TokenRule>)
    ensures out == FontRules(Grouped(fonts, groups))
  {
    hide FontRules, InGroup;
    out := [];
    NoFontRules();
    for g := 0 to |groups|
      invariant out == FontRules(Grouped(fonts, groups[..g]))
    {
      assert groups[..g + 1][..g] == groups[..g];
      FontRulesOfConcat(Grouped(fonts, groups[..g]), InGroup(fonts, groups[g]));
      var rows := EmitGroup(fonts, groups[g]);
      out := out + rows;
    }
    assert groups[..|groups|] == groups;
  }

  lemma NoFontRules()
    ensures FontRules([]) == []
  {
  }
}
