/**
 What a browser paints from the token sheet: for every theme table, root element and property, the
 cascade over the emitted rules gives back the table's own value.
 */
module Painting {
  import opened Wrappers
  import opened Tokens
  import opened Cascade
  import opened Stylesheet

  // ----- the element and the table -----

  /** The element carries this one mode class and no other (both classes at once never arise). */
  predicate InMode(root: Root, mode: Mode) {
    && ("dark" in root.classes <==> mode.Dark?)
    && ("hc" in root.classes <==> mode.HighContrast?)
  }

  /** The theme an attribute selects: the alternate of that name, else the default one. */
  function ThemeIndex(themes: seq<Theme>, attribute: Option<string>): (i: nat)
    requires |themes| > 0
    ensures i < |themes|
    ensures i > 0 ==> attribute == Some(themes[i].name)
    ensures i == 0 ==> forall j | 0 < j < |themes| :: attribute != Some(themes[j].name)
  {
    var n := |themes| - 1;
    if n == 0 then 0
    else if attribute == Some(themes[n].name) then n
    else ThemeIndex(themes[..n], attribute)
  }

  /** No attribute, and the default theme's own name, select the first theme of the table. */
  lemma DefaultAttributes(themes: seq<Theme>)
    requires WellFormed(themes)
    ensures ThemeIndex(themes, None) == 0 && ThemeIndex(themes, Some("slate")) == 0 && themes[0].name == "slate"
  {
  }

  /** `TOKENS[theme][mode]`, after the high-contrast rebuild. */
  function TablePalette(themes: seq<Theme>, i: nat, mode: Mode): (p: Palette)
    requires i < |themes| && AllComplete(themes)
    ensures Complete(p)
  {
    match mode
    case Light => themes[i].light
    case Dark => themes[i].dark
    case HighContrast => Layered(themes[0].hc, themes[i].hc)
  }

  // ----- what single rules declare -----

  lemma {:induction false} BlockDeclares(keys: seq<Key>, p: Palette, q: Property)
    requires Complete(p)
    ensures BlockValue(Block(keys, p), q) == if q.Color? && q.key in keys then Some(p[q.key]) else None
  {
    if keys != [] {
      var n := |keys| - 1;
      assert Block(keys, p)[..n] == Block(keys[..n], p);
      BlockDeclares(keys[..n], p, q);
      assert keys == keys[..n] + [keys[n]];
    }
  }

  lemma {:induction false} ModeRuleDeclares(theme: Theme, mode: Mode, q: Property)
    requires !mode.HighContrast?
    requires Complete(theme.light) && Complete(theme.dark)
    ensures BlockValue(ModeRule(theme, mode).block, q) ==
            match q
            case Color(k) => Some(if mode.Light? then theme.light[k] else theme.dark[k])
            case FontPortal => if mode.Light? then Some(FONT_PORTAL) else None
            case _ => None
  {
    var palette := if mode.Light? then theme.light else theme.dark;
    BlockDeclares(COLOR_KEYS, palette, q);
    if q.Color? {
      KeyLists(q.key);
    }
    if mode.Light? {
      var block := Block(COLOR_KEYS, palette);
      assert (block + [Declaration(FontPortal, FONT_PORTAL)])[..|block|] == block;
    }
  }

  // ----- the light and dark blocks -----

  function Bump(b: bool): nat { if b then 1 else 0 }

  /** The last theme's two blocks act on what the themes before it left. */
  lemma LastThemeResolves(themes: seq<Theme>, best: Option<Winner>, root: Root, q: Property)
    requires AllComplete(themes) && themes != []
    ensures AllComplete(themes[..|themes| - 1])
    ensures var n := |themes| - 1;
            Resolve(ThemeRules(themes), best, root, q) ==
            Challenge(Challenge(Resolve(ThemeRules(themes[..n]), best, root, q), ModeRule(themes[n], Light), root, q),
                      ModeRule(themes[n], Dark), root, q)
  {
    hide COLOR_KEYS, ModeRule, Challenge;
    var n := |themes| - 1;
    var light, dark := ModeRule(themes[n], Light), ModeRule(themes[n], Dark);
    ResolveSplits(ThemeRules(themes[..n]), [light, dark], best, root, q);
    PairResolves(light, dark, Resolve(ThemeRules(themes[..n]), best, root, q), root, q);
  }

  lemma {:induction false} NoThemes(themes: seq<Theme>, best: Option<Winner>, root: Root, q: Property)
    requires themes == []
    ensures Resolve(ThemeRules(themes), best, root, q) == best
  {
  }

  /** After the light and dark blocks the selected theme's palette leads, for every colour key. */
  lemma {:induction false} ModeBlocksPaint(themes: seq<Theme>, root: Root, mode: Mode, k: Key)
    requires |themes| > 0 && themes[0].name == DEFAULT_THEME && DistinctNames(themes) && AllComplete(themes)
    requires InMode(root, mode)
    ensures var i := ThemeIndex(themes, root.theme);
            Resolve(ThemeRules(themes), None, root, Color(k)) ==
            Some(Winner(1 + Bump(i > 0) + Bump(mode.Dark?),
                        if mode.Dark? then themes[i].dark[k] else themes[i].light[k]))
  {
    hide COLOR_KEYS, Resolve, ModeRule, Challenge;
    var n := |themes| - 1;
    var front, last := themes[..n], themes[n];
    LastThemeResolves(themes, None, root, Color(k));
    ModePair(last, root, mode, Resolve(ThemeRules(front), None, root, Color(k)), k);
    if n > 0 {
      ModeBlocksPaint(front, root, mode, k);
    } else {
      NoThemes(front, None, root, Color(k));
    }
  }

  /** How one theme's light and dark blocks act on the best so far. */
  lemma ModePair(theme: Theme, root: Root, mode: Mode, best: Option<Winner>, k: Key)
    requires Complete(theme.light) && Complete(theme.dark)
    requires InMode(root, mode)
    ensures var lone := 1 + Bump(theme.name != DEFAULT_THEME);
            var after := Challenge(Challenge(best, ModeRule(theme, Light), root, Color(k)),
                                   ModeRule(theme, Dark), root, Color(k));
            after ==
              if theme.name != DEFAULT_THEME && root.theme != Some(theme.name) then best
              else if mode.Dark? && (best.None? || best.value.specificity <= lone + 1)
              then Some(Winner(lone + 1, theme.dark[k]))
              else if best.None? || best.value.specificity <= lone then Some(Winner(lone, theme.light[k]))
              else best
  {
    ModeRuleDeclares(theme, Light, Color(k));
    ModeRuleDeclares(theme, Dark, Color(k));
  }

  lemma {:induction false} PairResolves<P>(r: Rule<P>, s: Rule<P>, best: Option<Winner>, root: Root, p: P)
    ensures Resolve([r, s], best, root, p) == Challenge(Challenge(best, r, root, p), s, root, p)
  {
    var next := Challenge(best, r, root, p);
    assert [r, s][1..] == [s];
    assert Resolve([r, s], best, root, p) == Resolve([s], next, root, p);
    assert [s][1..] == [];
    assert Resolve([s], next, root, p) == Resolve([], Challenge(next, s, root, p), root, p);
  }

  /** The light blocks all set the one font stack, at specificity 1 or 2. */
  lemma {:induction false} ModeBlocksSetFont(themes: seq<Theme>, root: Root)
    requires |themes| > 0 && themes[0].name == DEFAULT_THEME && AllComplete(themes)
    ensures var w := Resolve(ThemeRules(themes), None, root, FontPortal);
            w.Some? && w.value.specificity <= 2 && w.value.value == FONT_PORTAL
  {
    hide COLOR_KEYS, Resolve, ModeRule, Challenge;
    var n := |themes| - 1;
    var front, last := themes[..n], themes[n];
    LastThemeResolves(themes, None, root, FontPortal);
    FontPair(last, root, Resolve(ThemeRules(front), None, root, FontPortal));
    if n > 0 {
      ModeBlocksSetFont(front, root);
    } else {
      NoThemes(front, None, root, FontPortal);
    }
  }

  lemma FontPair(theme: Theme, root: Root, best: Option<Winner>)
    requires Complete(theme.light) && Complete(theme.dark)
    ensures var lone := 1 + Bump(theme.name != DEFAULT_THEME);
            Challenge(Challenge(best, ModeRule(theme, Light), root, FontPortal),
                      ModeRule(theme, Dark), root, FontPortal) ==
              if (theme.name == DEFAULT_THEME || root.theme == Some(theme.name)) &&
                 (best.None? || best.value.specificity <= lone)
              then Some(Winner(lone, FONT_PORTAL)) else best
  {
    hide COLOR_KEYS;
    ModeRuleDeclares(theme, Light, FontPortal);
    ModeRuleDeclares(theme, Dark, FontPortal);
  }

  lemma {:induction false} ModeBlocksSkipGeometry(themes: seq<Theme>, root: Root, q: Property)
    requires AllComplete(themes)
    requires q.IsRadius() || q.IsSpace()
    ensures Resolve(ThemeRules(themes), None, root, q) == None
  {
    hide COLOR_KEYS, Resolve, ModeRule, Challenge;
    if themes == [] {
      NoThemes(themes, None, root, q);
    } else {
      var n := |themes| - 1;
      LastThemeResolves(themes, None, root, q);
      GeometryPair(themes[n], root, q);
      ModeBlocksSkipGeometry(themes[..n], root, q);
    }
  }

  lemma GeometryPair(theme: Theme, root: Root, q: Property)
    requires Complete(theme.light) && Complete(theme.dark)
    requires q.IsRadius() || q.IsSpace()
    ensures Challenge(Challenge(None, ModeRule(theme, Light), root, q), ModeRule(theme, Dark), root, q) == None
  {
    hide COLOR_KEYS;
    ModeRuleDeclares(theme, Light, q);
    ModeRuleDeclares(theme, Dark, q);
  }

  // ----- the high-contrast layer -----

  /** One universal rule, then the accents: together they act as one override of the accented keys. */
  lemma {:induction false} HighContrastLayer(themes: seq<Theme>, root: Root, mode: Mode, best: Option<Winner>, q: Property)
    requires WellFormed(themes)
    requires InMode(root, mode)
    requires q.Color? && best.Some? && best.value.specificity <= if mode.HighContrast? then 2 else 3
    ensures var after := Resolve([UniversalRule(themes[0].hc)] + AccentRules(themes[1..]), best, root, q);
            var i := ThemeIndex(themes, root.theme);
            after.Some? && after.value.value ==
              if mode.HighContrast? then TablePalette(themes, i, HighContrast)[q.key] else best.value.value
  {
    var universal := UniversalRule(themes[0].hc);
    var accents := AccentRules(themes[1..]);
    BlockDeclares(COLOR_KEYS, themes[0].hc, q);
    KeyLists(q.key);
    ResolveSplits([universal], accents, best, root, q);
    assert [universal][1..] == [];
    var middle := Challenge(best, universal, root, q);
    assert Resolve([universal], best, root, q) == middle;
    AccentLayer(themes, root, middle, q);
    var i := ThemeIndex(themes, root.theme);
    if mode.HighContrast? {
      assert middle == Some(Winner(2, themes[0].hc[q.key]));
    } else {
      assert !Applies(universal, root, q);
    }
  }

  lemma {:induction false} AccentLayer(themes: seq<Theme>, root: Root, best: Option<Winner>, q: Property)
    requires WellFormed(themes)
    requires best.Some? && best.value.specificity <= 3
    ensures var i := ThemeIndex(themes, root.theme);
            Resolve(AccentRules(themes[1..]), best, root, q) ==
            if "hc" in root.classes && i > 0 && q.Color? && IsAccent(q.key)
            then Some(Winner(3, themes[i].hc[q.key])) else best
  {
    var alternates := themes[1..];
    var rules := AccentRules(alternates);
    var i := ThemeIndex(themes, root.theme);
    forall j | 0 <= j < |rules|
      ensures Applies(rules[j], root, q) <==> "hc" in root.classes && j + 1 == i && q.Color? && IsAccent(q.key)
      ensures Applies(rules[j], root, q) ==>
                Specificity(rules[j].selector) == 3 && BlockValue(rules[j].block, q) == Some(themes[i].hc[q.key])
    {
      assert alternates[j] == themes[j + 1];
      BlockDeclares(HC_ACCENT_KEYS, alternates[j].hc, q);
      if q.Color? {
        KeyLists(q.key);
      }
      if root.theme == Some(alternates[j].name) {
        assert i == j + 1;
      }
    }
    if q.Color? && i > 0 {
      UniformSegment(rules, best, root, q, Winner(3, themes[i].hc[q.key]));
      if "hc" in root.classes && IsAccent(q.key) {
        assert Applies(rules[i - 1], root, q);
      }
    } else {
      InertSegment(rules, best, root, q);
    }
  }

  // ----- the font rules -----

  lemma {:induction false} InGroupMembers(fonts: seq<Font>, group: string, f: Font)
    ensures f in InGroup(fonts, group) <==> f in fonts && f.group == group
  {
    if fonts != [] {
      var n := |fonts| - 1;
      InGroupMembers(fonts[..n], group, f);
      assert fonts == fonts[..n] + [fonts[n]];
    }
  }

  /** Fonts come group by group, in the order of the groups, and within a group as registered. */
  lemma {:induction false} GroupsInOrder(fonts: seq<Font>, more: seq<Font>, a: seq<string>, b: seq<string>, group: string)
    ensures Grouped(fonts, a + b) == Grouped(fonts, a) + Grouped(fonts, b)
    ensures Grouped(fonts + more, [group]) == Grouped(fonts, [group]) + Grouped(more, [group])
  {
    GroupsSplit(fonts, a, b);
    OneGroupSplits(fonts, more, group);
  }

  lemma {:induction false} GroupsSplit(fonts: seq<Font>, a: seq<string>, b: seq<string>)
    ensures Grouped(fonts, a + b) == Grouped(fonts, a) + Grouped(fonts, b)
  {
    hide InGroup;
    if b == [] {
      assert a + b == a;
    } else {
      assert (a + b)[..|a + b| - 1] == a + b[..|b| - 1];
      GroupsSplit(fonts, a, b[..|b| - 1]);
    }
  }

  lemma {:induction false} OneGroupSplits(fonts: seq<Font>, more: seq<Font>, group: string)
    ensures InGroup(fonts + more, group) == InGroup(fonts, group) + InGroup(more, group)
    ensures forall all :: Grouped(all, [group]) == InGroup(all, group)
  {
    assert forall all :: Grouped(all, [group][..0]) == [];
    if more == [] {
      assert fonts + more == fonts;
    } else {
      assert (fonts + more)[..|fonts + more| - 1] == fonts + more[..|more| - 1];
      OneGroupSplits(fonts, more[..|more| - 1], group);
    }
  }

  /** Emission drops no registered font whose group is displayed, and adds none. */
  lemma {:induction false} GroupedMembers(fonts: seq<Font>, groups: seq<string>, f: Font)
    ensures f in Grouped(fonts, groups) <==> f in fonts && f.group in groups
  {
    if groups != [] {
      var n := |groups| - 1;
      GroupedMembers(fonts, groups[..n], f);
      InGroupMembers(fonts, groups[n], f);
      assert groups == groups[..n] + [groups[n]];
    }
  }

  ghost predicate DistinctKeys(fonts: seq<Font>) {
    forall f, g | f in fonts && g in fonts && f.key == g.key :: f == g
  }

  /** Of the emitted font classes the element carries at most this one. */
  ghost predicate InFont(root: Root, fonts: seq<Font>, choice: Option<Font>) {
    && (choice.Some? ==> choice.value in fonts && FontClass(choice.value.key) in root.classes)
    && forall f | f in fonts && FontClass(f.key) in root.classes :: choice == Some(f)
  }

  lemma FontClassesDiffer(k: string, l: string)
    ensures FontClass(k) == FontClass(l) ==> k == l
  {
    if FontClass(k) == FontClass(l) {
      assert k == FontClass(k)[5..] == FontClass(l)[5..] == l;
    }
  }

  /** A font class beats the light block that declares the stack, by order where it ties with it. */
  lemma {:induction false} FontLayer(fonts: seq<Font>, root: Root, choice: Option<Font>, best: Option<Winner>)
    requires InFont(root, fonts, choice)
    requires best.Some? ==> best.value.specificity <= 2
    ensures Resolve(FontRules(fonts), best, root, FontPortal) ==
            if choice.Some? then Some(Winner(2, FontStack(choice.value))) else best
  {
    var rules := FontRules(fonts);
    forall i | 0 <= i < |rules|
      ensures Applies(rules[i], root, FontPortal) <==> choice == Some(fonts[i])
      ensures BlockValue(rules[i].block, FontPortal) == Some(FontStack(fonts[i]))
    {
      assert rules[i] == FontRule(fonts[i]);
      assert fonts[i] in fonts;
    }
    if choice.Some? {
      UniformSegment(rules, best, root, FontPortal, Winner(2, FontStack(choice.value)));
      var i :| 0 <= i < |fonts| && fonts[i] == choice.value;
      assert Applies(rules[i], root, FontPortal);
    } else {
      InertSegment(rules, best, root, FontPortal);
    }
  }

  lemma {:induction false} FontRulesDeclareOnlyFont(fonts: seq<Font>, root: Root, best: Option<Winner>, q: Property)
    requires !q.FontPortal?
    ensures Resolve(FontRules(fonts), best, root, q) == best
  {
    var rules := FontRules(fonts);
    forall i | 0 <= i < |rules| ensures !Applies(rules[i], root, q) {
      BlockValueLast([], Declaration(FontPortal, FontStack(fonts[i])), q);
      assert rules[i].block == [] + [Declaration(FontPortal, FontStack(fonts[i]))];
    }
    InertSegment(rules, best, root, q);
  }

  // ----- corners and density -----

  /** Of the corner classes the element carries exactly the one of this value, if it has one. */
  predicate InCorners(root: Root, c: Corners) {
    && ("radius-sharp" in root.classes <==> c.Sharp?)
    && ("radius-rounded" in root.classes <==> c.Rounded?)
    && ("radius-pill" in root.classes <==> c.Pill?)
  }

  predicate InDensity(root: Root, d: Density) {
    && ("density-compact" in root.classes <==> d.Compact?)
    && ("density-spacious" in root.classes <==> d.Spacious?)
  }

  lemma {:induction false} RadiusBlockDeclares(a: string, b: string, c: string, q: Property)
    ensures BlockValue(RadiusBlock(a, b, c), q) ==
            match q
            case RadiusControl => Some(a)
            case RadiusCard => Some(b)
            case RadiusSm => Some(c)
            case _ => None
  {
    var block := RadiusBlock(a, b, c);
    BlockValueLast(block[..2], block[2], q);
    BlockValueLast(block[..1], block[1], q);
    BlockValueLast([], block[0], q);
    assert block == block[..2] + [block[2]] && block[..2] == block[..1] + [block[1]] && block[..1] == [] + [block[0]];
  }

  lemma {:induction false} SpaceBlockDeclares(a: string, b: string, c: string, d: string, e: string, q: Property)
    ensures BlockValue(SpaceBlock(a, b, c, d, e), q) ==
            match q
            case SpaceControlH => Some(a)
            case SpaceControlPadX => Some(b)
            case SpaceFieldGap => Some(c)
            case SpaceSectionPad => Some(d)
            case SpaceStack => Some(e)
            case _ => None
  {
    var block := SpaceBlock(a, b, c, d, e);
    BlockValueLast(block[..4], block[4], q);
    BlockValueLast(block[..3], block[3], q);
    BlockValueLast(block[..2], block[2], q);
    BlockValueLast(block[..1], block[1], q);
    BlockValueLast([], block[0], q);
    assert block == block[..4] + [block[4]] && block[..4] == block[..3] + [block[3]];
    assert block[..3] == block[..2] + [block[2]] && block[..2] == block[..1] + [block[1]];
    assert block[..1] == [] + [block[0]];
  }

  lemma {:induction false} CornersRuleDeclares(c: Corners, q: Property)
    ensures BlockValue(CornersRule(c).block, q).Some? <==> q.IsRadius()
  {
    RadiusBlockDeclares("6px", "10px", "4px", q);
    RadiusBlockDeclares("0", "0", "0", q);
    RadiusBlockDeclares("10px", "16px", "6px", q);
    RadiusBlockDeclares("999px", "20px", "8px", q);
  }

  lemma {:induction false} DensityRuleDeclares(d: Density, q: Property)
    ensures BlockValue(DensityRule(d).block, q).Some? <==> q.IsSpace()
  {
    SpaceBlockDeclares("44px", "0.9rem", "2em", "2.25rem", "0.5rem", q);
    SpaceBlockDeclares("36px", "0.6rem", "1.3em", "1.5rem", "0.35rem", q);
    SpaceBlockDeclares("52px", "1.1rem", "2.5em", "2.9rem", "0.7rem", q);
  }

  /** The radii of each choice of corners. */
  lemma RadiiOf(c: Corners, q: Property)
    requires q.IsRadius()
    ensures BlockValue(CornersRule(c).block, q) == Some(
              match q
              case RadiusControl => (match c case Sharp => "0" case Subtle => "6px" case Rounded => "10px" case Pill => "999px")
              case RadiusCard => (match c case Sharp => "0" case Subtle => "10px" case Rounded => "16px" case Pill => "20px")
              case _ => (match c case Sharp => "0" case Subtle => "4px" case Rounded => "6px" case Pill => "8px"))
  {
    hide BlockValue, RadiusBlock;
    match c
    case Sharp => RadiusBlockDeclares("0", "0", "0", q);
    case Subtle => RadiusBlockDeclares("6px", "10px", "4px", q);
    case Rounded => RadiusBlockDeclares("10px", "16px", "6px", q);
    case Pill => RadiusBlockDeclares("999px", "20px", "8px", q);
  }

  /** The spacing of each choice of density. */
  lemma SpacesOf(d: Density, q: Property)
    requires q.IsSpace()
    ensures BlockValue(DensityRule(d).block, q) == Some(
              match q
              case SpaceControlH => (match d case Compact => "36px" case Comfortable => "44px" case Spacious => "52px")
              case SpaceControlPadX => (match d case Compact => "0.6rem" case Comfortable => "0.9rem" case Spacious => "1.1rem")
              case SpaceFieldGap => (match d case Compact => "1.3em" case Comfortable => "2em" case Spacious => "2.5em")
              case SpaceSectionPad => (match d case Compact => "1.5rem" case Comfortable => "2.25rem" case Spacious => "2.9rem")
              case _ => (match d case Compact => "0.35rem" case Comfortable => "0.5rem" case Spacious => "0.7rem"))
  {
    hide BlockValue, SpaceBlock;
    match d
    case Compact => SpaceBlockDeclares("36px", "0.6rem", "1.3em", "1.5rem", "0.35rem", q);
    case Comfortable => SpaceBlockDeclares("44px", "0.9rem", "2em", "2.25rem", "0.5rem", q);
    case Spacious => SpaceBlockDeclares("52px", "1.1rem", "2.5em", "2.9rem", "0.7rem", q);
  }

  /** No corner rule says anything but radii, whatever classes the element carries. */
  lemma {:induction false} CornersSetOnlyRadii(root: Root, best: Option<Winner>, q: Property)
    requires !q.IsRadius()
    ensures Resolve(CORNERS_RULES, best, root, q) == best
  {
    CornersRuleDeclares(Subtle, q);
    CornersRuleDeclares(Sharp, q);
    CornersRuleDeclares(Rounded, q);
    CornersRuleDeclares(Pill, q);
    hide CornersRule;
    InertSegment(CORNERS_RULES, best, root, q);
  }

  /** No density rule says anything but spacing. */
  lemma {:induction false} DensitySetsOnlySpacing(root: Root, best: Option<Winner>, q: Property)
    requires !q.IsSpace()
    ensures Resolve(DENSITY_RULES, best, root, q) == best
  {
    DensityRuleDeclares(Comfortable, q);
    DensityRuleDeclares(Compact, q);
    DensityRuleDeclares(Spacious, q);
    hide DensityRule;
    InertSegment(DENSITY_RULES, best, root, q);
  }

  lemma {:induction false} CornersPaint(root: Root, c: Corners, q: Property)
    requires InCorners(root, c) && q.IsRadius()
    ensures BlockValue(CornersRule(c).block, q).Some?
    ensures Resolve(CORNERS_RULES, None, root, q) ==
            Some(Winner(Specificity(CornersRule(c).selector), BlockValue(CornersRule(c).block, q).value))
  {
    CornersRuleDeclares(Subtle, q);
    CornersSelectors();
    hide CornersRule, BlockValue;
    var variants := [CornersRule(Sharp), CornersRule(Rounded), CornersRule(Pill)];
    assert c.Sharp? ==> variants[0] == CornersRule(c);
    assert c.Rounded? ==> variants[1] == CornersRule(c);
    assert c.Pill? ==> variants[2] == CornersRule(c);
    CornersRuleDeclares(c, q);
    BaseThenVariants(CornersRule(Subtle), variants, CornersRule(c), root, q);
  }

  lemma CornersSelectors()
    ensures forall c: Corners :: CornersRule(c).selector == Selector(None, CornersClass(c))
  {
  }

  lemma {:induction false} DensityPaints(root: Root, d: Density, q: Property)
    requires InDensity(root, d) && q.IsSpace()
    ensures BlockValue(DensityRule(d).block, q).Some?
    ensures Resolve(DENSITY_RULES, None, root, q) ==
            Some(Winner(Specificity(DensityRule(d).selector), BlockValue(DensityRule(d).block, q).value))
  {
    DensityRuleDeclares(Comfortable, q);
    DensitySelectors();
    hide DensityRule, BlockValue;
    var variants := [DensityRule(Compact), DensityRule(Spacious)];
    assert d.Compact? ==> variants[0] == DensityRule(d);
    assert d.Spacious? ==> variants[1] == DensityRule(d);
    DensityRuleDeclares(d, q);
    BaseThenVariants(DensityRule(Comfortable), variants, DensityRule(d), root, q);
  }

  lemma DensitySelectors()
    ensures forall d: Density :: DensityRule(d).selector == Selector(None, DensityClass(d))
  {
  }

  // ----- the theorems -----

  /** The segments of the sheet, resolved one after the other. */
  lemma {:induction false} SheetResolvesInLayers(themes: seq<Theme>, fonts: seq<Font>, groups: seq<string>,
                                                 root: Root, q: Property)
    requires |themes| > 0 && AllComplete(themes)
    ensures Resolve(Sheet(themes, fonts, groups), None, root, q) ==
            var modes := Resolve(ThemeRules(themes), None, root, q);
            var contrast := Resolve([UniversalRule(themes[0].hc)] + AccentRules(themes[1..]), modes, root, q);
            var fonted := Resolve(FontRules(Grouped(fonts, groups)), contrast, root, q);
            Resolve(DENSITY_RULES, Resolve(CORNERS_RULES, fonted, root, q), root, q)
  {
    hide COLOR_KEYS, CORNERS_RULES, DENSITY_RULES, Resolve, ThemeRules, UniversalRule, AccentRules, FontRules, Grouped;
    var a, b := ThemeRules(themes), [UniversalRule(themes[0].hc)] + AccentRules(themes[1..]);
    var c := FontRules(Grouped(fonts, groups));
    assert Sheet(themes, fonts, groups) == (((a + b) + c) + CORNERS_RULES) + DENSITY_RULES;
    ResolveSplits(((a + b) + c) + CORNERS_RULES, DENSITY_RULES, None, root, q);
    ResolveSplits((a + b) + c, CORNERS_RULES, None, root, q);
    ResolveSplits(a + b, c, None, root, q);
    ResolveSplits(a, b, None, root, q);
  }

  /** The part of the sheet after the theme colours. */
  lemma {:induction false} TailSkipsColours(fonts: seq<Font>, root: Root, best: Option<Winner>, k: Key)
    ensures Resolve(DENSITY_RULES, Resolve(CORNERS_RULES, Resolve(FontRules(fonts), best, root, Color(k)), root, Color(k)),
                    root, Color(k)) == best
  {
    FontRulesDeclareOnlyFont(fonts, root, best, Color(k));
    CornersSetOnlyRadii(root, best, Color(k));
    DensitySetsOnlySpacing(root, best, Color(k));
  }

  /** The rebuilt table, read off the authored one. */
  lemma TableByMode(themes: seq<Theme>, i: nat, mode: Mode, k: Key)
    requires i < |themes| && AllComplete(themes)
    ensures TablePalette(themes, i, mode)[k] ==
            match mode
            case Light => themes[i].light[k]
            case Dark => themes[i].dark[k]
            case HighContrast =>
              if k in {Primary, PrimaryHover, PrimaryActive, PrimaryForeground} then themes[i].hc[k] else themes[0].hc[k]
  {
    assert IsAccent(k) <==> k in {Primary, PrimaryHover, PrimaryActive, PrimaryForeground};
  }

  lemma {:induction false} SheetPaintsThePalette(themes: seq<Theme>, fonts: seq<Font>, groups: seq<string>,
                                                 root: Root, mode: Mode, k: Key)
    requires WellFormed(themes) && InMode(root, mode)
    ensures Computed(Sheet(themes, fonts, groups), root, Color(k)) ==
            Some(TablePalette(themes, ThemeIndex(themes, root.theme), mode)[k])
  {
    hide COLOR_KEYS, CORNERS_RULES, DENSITY_RULES, Resolve, Sheet, UniversalRule, AccentRules, FontRules, InMode;
    SheetResolvesInLayers(themes, fonts, groups, root, Color(k));
    ModeBlocksPaint(themes, root, mode, k);
    var modes := Resolve(ThemeRules(themes), None, root, Color(k));
    HighContrastLayer(themes, root, mode, modes, Color(k));
    var contrast := Resolve([UniversalRule(themes[0].hc)] + AccentRules(themes[1..]), modes, root, Color(k));
    TailSkipsColours(Grouped(fonts, groups), root, contrast, k);
  }

  /**
   Cascade correctness.  For every well-formed table, every element in one mode, and every colour
   key, the computed value is the table's: the attribute's theme, or the default when the
   attribute is absent, unknown or names the default itself.  No other class matters.
   */
  lemma {:induction false} SheetPaintsTheTable(themes: seq<Theme>, fonts: seq<Font>, groups: seq<string>,
                                               root: Root, mode: Mode, k: Key)
    requires WellFormed(themes) && InMode(root, mode)
    ensures var i := ThemeIndex(themes, root.theme);
            Computed(Sheet(themes, fonts, groups), root, Color(k)) == Some(
              match mode
              case Light => themes[i].light[k]
              case Dark => themes[i].dark[k]
              case HighContrast =>
                if k in {Primary, PrimaryHover, PrimaryActive, PrimaryForeground} then themes[i].hc[k] else themes[0].hc[k])
  {
    hide Computed, Sheet, TablePalette, InMode;
    SheetPaintsThePalette(themes, fonts, groups, root, mode, k);
    TableByMode(themes, ThemeIndex(themes, root.theme), mode, k);
  }

  /** The font stack is the chosen font's, and the system stack where none is chosen, in every theme and mode. */
  lemma {:induction false} SheetPaintsTheFont(themes: seq<Theme>, fonts: seq<Font>, groups: seq<string>,
                                              root: Root, choice: Option<Font>)
    requires WellFormed(themes) && InFont(root, Grouped(fonts, groups), choice)
    ensures Computed(Sheet(themes, fonts, groups), root, FontPortal) ==
            Some(if choice.Some? then FontStack(choice.value) else FONT_PORTAL)
  {
    hide COLOR_KEYS, CORNERS_RULES, DENSITY_RULES, Resolve, Sheet, UniversalRule, AccentRules, InFont;
    SheetResolvesInLayers(themes, fonts, groups, root, FontPortal);
    ModeBlocksSetFont(themes, root);
    var modes := Resolve(ThemeRules(themes), None, root, FontPortal);
    ContrastLayerSkips(themes, root, modes, FontPortal);
    FontLayer(Grouped(fonts, groups), root, choice, modes);
    var fonted := Resolve(FontRules(Grouped(fonts, groups)), modes, root, FontPortal);
    CornersSetOnlyRadii(root, fonted, FontPortal);
    DensitySetsOnlySpacing(root, fonted, FontPortal);
  }

  // ----- why the font classes come after the theme blocks -----

  /** Over a best of specificity 2, only the light block of a selected alternate theme sets the font. */
  lemma {:induction false} ThemeBlocksOverFont(themes: seq<Theme>, root: Root, best: Winner)
    requires AllComplete(themes) && best.specificity == 2
    ensures Resolve(ThemeRules(themes), Some(best), root, FontPortal) ==
            if exists i :: 0 <= i < |themes| && themes[i].name != DEFAULT_THEME && root.theme == Some(themes[i].name)
            then Some(Winner(2, FONT_PORTAL)) else Some(best)
  {
    hide COLOR_KEYS, Resolve, ModeRule, Challenge;
    if themes == [] {
      NoThemes(themes, Some(best), root, FontPortal);
    } else {
      var n := |themes| - 1;
      var front := themes[..n];
      ThemeBlocksOverFont(front, root, best);
      LastThemeResolves(themes, Some(best), root, FontPortal);
      FontPair(themes[n], root, Resolve(ThemeRules(front), Some(best), root, FontPortal));
      assert forall i | 0 <= i < n :: front[i] == themes[i];
    }
  }

  /**
   A font class and the light block of a selected alternate theme are equally specific, and only their order
   decides: as emitted the font wins, and with the two parts swapped the theme block would.
   */
  lemma {:induction false} FontWinsByOrderAlone(themes: seq<Theme>, fonts: seq<Font>, root: Root, f: Font)
    requires WellFormed(themes) && InFont(root, fonts, Some(f))
    requires ThemeIndex(themes, root.theme) > 0
    ensures Specificity(FontRule(f).selector)
         == Specificity(ModeRule(themes[ThemeIndex(themes, root.theme)], Light).selector)
    ensures Computed(ThemeRules(themes) + FontRules(fonts), root, FontPortal) == Some(FontStack(f))
    ensures Computed(FontRules(fonts) + ThemeRules(themes), root, FontPortal) == Some(FONT_PORTAL)
  {
    hide COLOR_KEYS, Resolve, InFont;
    var i := ThemeIndex(themes, root.theme);
    assert themes[0].name != themes[i].name;
    ModeBlocksSetFont(themes, root);
    FontLayer(fonts, root, Some(f), Resolve(ThemeRules(themes), None, root, FontPortal));
    ResolveSplits(ThemeRules(themes), FontRules(fonts), None, root, FontPortal);
    FontLayer(fonts, root, Some(f), None);
    ResolveSplits(FontRules(fonts), ThemeRules(themes), None, root, FontPortal);
    ThemeBlocksOverFont(themes, root, Winner(2, FontStack(f)));
  }

  lemma {:induction false} ContrastLayerSkips(themes: seq<Theme>, root: Root, best: Option<Winner>, q: Property)
    requires |themes| > 0 && AllComplete(themes)
    requires !q.Color?
    ensures Resolve([UniversalRule(themes[0].hc)] + AccentRules(themes[1..]), best, root, q) == best
  {
    hide COLOR_KEYS;
    var rules := [UniversalRule(themes[0].hc)] + AccentRules(themes[1..]);
    BlockDeclares(COLOR_KEYS, themes[0].hc, q);
    forall i | 0 <= i < |rules| ensures !Applies(rules[i], root, q) {
      if i > 0 {
        BlockDeclares(HC_ACCENT_KEYS, themes[1..][i - 1].hc, q);
      }
    }
    InertSegment(rules, best, root, q);
  }

  lemma {:induction false} ColoursAndFontsSkipGeometry(themes: seq<Theme>, fonts: seq<Font>, root: Root, q: Property)
    requires |themes| > 0 && AllComplete(themes)
    requires q.IsRadius() || q.IsSpace()
    ensures Resolve(FontRules(fonts), Resolve([UniversalRule(themes[0].hc)] + AccentRules(themes[1..]),
                                              Resolve(ThemeRules(themes), None, root, q), root, q), root, q) == None
  {
    hide COLOR_KEYS, Resolve, UniversalRule, AccentRules;
    ModeBlocksSkipGeometry(themes, root, q);
    ContrastLayerSkips(themes, root, None, q);
    FontRulesDeclareOnlyFont(fonts, root, None, q);
  }

  /** Radius tokens follow the corners alone. */
  lemma {:induction false} SheetPaintsTheCorners(themes: seq<Theme>, fonts: seq<Font>, groups: seq<string>,
                                                 root: Root, c: Corners, q: Property)
    requires WellFormed(themes) && InCorners(root, c) && q.IsRadius()
    ensures Computed(Sheet(themes, fonts, groups), root, q) == Some(
              match q
              case RadiusControl => (match c case Sharp => "0" case Subtle => "6px" case Rounded => "10px" case Pill => "999px")
              case RadiusCard => (match c case Sharp => "0" case Subtle => "10px" case Rounded => "16px" case Pill => "20px")
              case _ => (match c case Sharp => "0" case Subtle => "4px" case Rounded => "6px" case Pill => "8px"))
  {
    hide COLOR_KEYS, CORNERS_RULES, DENSITY_RULES, Resolve, Sheet, UniversalRule, AccentRules, FontRules, CornersRule, BlockValue;
    SheetResolvesInLayers(themes, fonts, groups, root, q);
    ColoursAndFontsSkipGeometry(themes, Grouped(fonts, groups), root, q);
    CornersPaint(root, c, q);
    RadiiOf(c, q);
    DensitySetsOnlySpacing(root, Resolve(CORNERS_RULES, None, root, q), q);
  }

  /** Spacing tokens follow the density alone. */
  lemma {:induction false} SheetPaintsTheDensity(themes: seq<Theme>, fonts: seq<Font>, groups: seq<string>,
                                                 root: Root, d: Density, q: Property)
    requires WellFormed(themes) && InDensity(root, d) && q.IsSpace()
    ensures Computed(Sheet(themes, fonts, groups), root, q) == Some(
              match q
              case SpaceControlH => (match d case Compact => "36px" case Comfortable => "44px" case Spacious => "52px")
              case SpaceControlPadX => (match d case Compact => "0.6rem" case Comfortable => "0.9rem" case Spacious => "1.1rem")
              case SpaceFieldGap => (match d case Compact => "1.3em" case Comfortable => "2em" case Spacious => "2.5em")
              case SpaceSectionPad => (match d case Compact => "1.5rem" case Comfortable => "2.25rem" case Spacious => "2.9rem")
              case _ => (match d case Compact => "0.35rem" case Comfortable => "0.5rem" case Spacious => "0.7rem"))
  {
    hide COLOR_KEYS, CORNERS_RULES, DENSITY_RULES, Resolve, Sheet, UniversalRule, AccentRules, FontRules, DensityRule, BlockValue;
    SheetResolvesInLayers(themes, fonts, groups, root, q);
    ColoursAndFontsSkipGeometry(themes, Grouped(fonts, groups), root, q);
    CornersSetOnlyRadii(root, None, q);
    DensityPaints(root, d, q);
    SpacesOf(d, q);
  }

  // ----- the order the axes promise -----

  function Digits(s: string): Option<nat> {
    if s == [] then Some(0)
    else
      var n := |s| - 1;
      var front := Digits(s[..n]);
      if front.Some? && '0' <= s[n] <= '9' then Some(10 * front.value + (s[n] - '0') as nat) else None
  }

  /** A CSS length in pixels: digits before "px", or a bare zero. */
  function Pixels(s: string): Option<nat> {
    if s == "0" then Some(0)
    else if |s| > 2 && s[|s| - 2..] == "px" then Digits(s[..|s| - 2])
    else None
  }

  lemma PixelsOf(digits: string, n: nat)
    requires digits != [] && Digits(digits) == Some(n)
    ensures Pixels(digits + "px") == Some(n)
  {
    var s := digits + "px";
    assert s[|s| - 2..] == "px" && s[..|s| - 2] == digits;
    assert s != "0";
  }

  lemma {:induction false} TwoDigits(x: char, y: char)
    requires '0' <= x <= '9' && '0' <= y <= '9'
    ensures Digits([x]) == Some((x - '0') as nat)
    ensures Digits([x, y]) == Some(10 * (x - '0') as nat + (y - '0') as nat)
  {
    assert [x][..0] == [] && [x, y][..1] == [x];
  }

  lemma {:induction false} ControlLengths()
    ensures Pixels("0") == Some(0) && Pixels("6px") == Some(6) && Pixels("10px") == Some(10) && Pixels("999px") == Some(999)
    ensures Pixels("36px") == Some(36) && Pixels("44px") == Some(44) && Pixels("52px") == Some(52)
  {
    TwoDigits('6', '6');
    TwoDigits('1', '0');
    TwoDigits('9', '9');
    TwoDigits('3', '6');
    TwoDigits('4', '4');
    TwoDigits('5', '2');
    assert "999"[..2] == "99";
    hide Pixels;
    PixelsOf("6", 6);
    PixelsOf("10", 10);
    PixelsOf("999", 999);
    PixelsOf("36", 36);
    PixelsOf("44", 44);
    PixelsOf("52", 52);
    assert "6" + "px" == "6px" && "10" + "px" == "10px" && "999" + "px" == "999px";
    assert "36" + "px" == "36px" && "44" + "px" == "44px" && "52" + "px" == "52px";
    ZeroPixels();
  }

  lemma ZeroPixels()
    ensures Pixels("0") == Some(0)
  {
  }

  /** From sharp over subtle and rounded to pill. */
  predicate Rounder(a: Corners, b: Corners) {
    (a.Sharp? && !b.Sharp?) || (a.Subtle? && (b.Rounded? || b.Pill?)) || (a.Rounded? && b.Pill?)
  }

  predicate Roomier(a: Density, b: Density) {
    (a.Compact? && !b.Compact?) || (a.Comfortable? && b.Spacious?)
  }

  function PaintedPixels(themes: seq<Theme>, fonts: seq<Font>, groups: seq<string>, root: Root, q: Property): Option<nat>
    requires WellFormed(themes)
  {
    var painted := Computed(Sheet(themes, fonts, groups), root, q);
    if painted.Some? then Pixels(painted.value) else None
  }

  /** Rounder corners paint a greater control radius, and roomier density a taller control, never below 36 pixels. */
  lemma {:induction false} ControlsGrow(themes: seq<Theme>, fonts: seq<Font>, groups: seq<string>, r: Root, s: Root,
                                        a: Corners, b: Corners, x: Density, y: Density)
    requires WellFormed(themes)
    requires InCorners(r, a) && InCorners(s, b) && InDensity(r, x) && InDensity(s, y)
    ensures var p, q := PaintedPixels(themes, fonts, groups, r, RadiusControl), PaintedPixels(themes, fonts, groups, s, RadiusControl);
            p.Some? && q.Some? && (Rounder(a, b) <==> p.value < q.value)
    ensures var p, q := PaintedPixels(themes, fonts, groups, r, SpaceControlH), PaintedPixels(themes, fonts, groups, s, SpaceControlH);
            p.Some? && q.Some? && p.value >= 36 && (Roomier(x, y) <==> p.value < q.value)
  {
    hide Computed, Sheet, Pixels, WellFormed, InCorners, InDensity;
    ControlLengths();
    SheetPaintsTheCorners(themes, fonts, groups, r, a, RadiusControl);
    SheetPaintsTheCorners(themes, fonts, groups, s, b, RadiusControl);
    SheetPaintsTheDensity(themes, fonts, groups, r, x, SpaceControlH);
    SheetPaintsTheDensity(themes, fonts, groups, s, y, SpaceControlH);
  }

  // ----- font stacks -----

  /** A stack starts with the quoted family, and falls back to serifs exactly for the five serif keys. */
  lemma FontStackOf(f: Font)
    ensures FontStack(f) == "\"" + f.family + "\", " +
              (if f.key in {"merriweather", "lora", "ptserif", "librebaskerville", "ibmplexserif"}
               then "Georgia, \"Times New Roman\", serif" else "ui-sans-serif, system-ui, sans-serif")
  {
    hide SERIF_KEYS;
    SerifKeys(f.key);
  }

  lemma SerifKeys(key: string)
    ensures key in SERIF_KEYS <==> key in {"merriweather", "lora", "ptserif", "librebaskerville", "ibmplexserif"}
  {
  }
}
