/**
 The showcase page's runtime: `applyRoot`, which drives the root element from the page state, its
 control handlers and its start-up, over every run of control events.
 */
module Showcase {
  import opened Wrappers
  import opened Tokens
  import opened Cascade
  import opened Stylesheet
  import opened Painting

  /** The page's `state`; the font "system" is `None`. */
  datatype State = State(theme: string, mode: Mode, font: Option<string>, density: Density, corners: Corners)

  datatype Event =
    | ChooseTheme(theme: string)
    | ChooseMode(mode: Mode)
    | ChooseFont(font: Option<string>)
    | ChooseDensity(density: Density)
    | ChooseCorners(corners: Corners)

  const INITIAL := State(DEFAULT_THEME, Light, None, Comfortable, Subtle)

  const AXIS_CLASSES: set<string> := {"dark", "hc", "density-compact", "density-spacious",
                                      "radius-sharp", "radius-rounded", "radius-pill"}

  /** The classes `applyRoot` removes before it adds any. */
  function Managed(fontKeys: seq<string>): set<string> {
    AXIS_CLASSES + set k | k in fontKeys :: FontClass(k)
  }

  function Singleton(c: Option<string>): set<string> {
    if c.Some? then {c.value} else {}
  }

  function FontClassOf(font: Option<string>): Option<string> {
    if font.Some? then Some(FontClass(font.value)) else None
  }

  /** The classes a state adds: at most one per axis. */
  function ClassesOf(s: State): set<string> {
    Singleton(ModeClass(s.mode)) +
    Singleton(FontClassOf(s.font)) +
    Singleton(DensityClass(s.density)) +
    Singleton(CornersClass(s.corners))
  }

  function AttributeOf(s: State): Option<string> {
    if s.theme == DEFAULT_THEME then None else Some(s.theme)
  }

  function Rooted(fontKeys: seq<string>, root: Root, s: State): Root {
    Root(AttributeOf(s), (root.classes - Managed(fontKeys)) + ClassesOf(s))
  }

  /** What a control does to the state. */
  function Chosen(s: State, e: Event): State {
    match e
    case ChooseTheme(theme) => s.(theme := theme)
    case ChooseMode(mode) => s.(mode := mode)
    case ChooseFont(font) => s.(font := font)
    case ChooseDensity(density) => s.(density := density)
    case ChooseCorners(corners) => s.(corners := corners)
  }

  /** The operating system's preference decides the first mode; contrast is asked before colour. */
  function InitialMode(prefersContrast: bool, prefersDark: bool): Mode {
    if prefersContrast then HighContrast else if prefersDark then Dark else Light
  }

  /** The list `applyRoot` builds before it removes anything. */
  method RemovedClasses(fontKeys: seq<string>) returns (rm: set<string>)
    ensures rm == Managed(fontKeys)
  {
    rm := AXIS_CLASSES;
    for i := 0 to |fontKeys|
      invariant rm == Managed(fontKeys[..i])
    {
      assert fontKeys[..i + 1] == fontKeys[..i] + [fontKeys[i]];
      rm := rm + {FontClass(fontKeys[i])};
    }
    assert fontKeys[..|fontKeys|] == fontKeys;
  }

  /** The page: the state, and the root element's attribute and class list. */
  class Page {
    const fontKeys: seq<string>
    var state: State
    var theme: Option<string>
    var classes: set<string>

    function Element(): Root
      reads this
    {
      Root(theme, classes)
    }

    constructor (fontKeys: seq<string>, root: Root)
      ensures this.fontKeys == fontKeys && state == INITIAL && Element() == root
    {
      this.fontKeys := fontKeys;
      state := INITIAL;
      theme, classes := root.theme, root.classes;
    }

    /** Adds a class, if the axis has one. */
    method AddClass(c: Option<string>)
      modifies this`classes
      ensures classes == old(classes) + Singleton(c)
    {
      if c.Some? {
        classes := classes + {c.value};
      }
    }

    method ApplyRoot()
      modifies this`theme, this`classes
      ensures Element() == Rooted(fontKeys, old(Element()), state)
      ensures theme == if state.theme == "slate" then None else Some(state.theme)
    {
      hide Managed, AXIS_CLASSES, ModeClass, DensityClass, CornersClass, FontClass, Singleton;
      var rm := RemovedClasses(fontKeys);
      classes := classes - rm;
      ghost var kept := classes;
      AddClass(ModeClass(state.mode));
      AddClass(FontClassOf(state.font));
      AddClass(DensityClass(state.density));
      AddClass(CornersClass(state.corners));
      assert classes == kept + ClassesOf(state);
      theme := if state.theme == DEFAULT_THEME then None else Some(state.theme);
    }

    /** The page script's last act. */
    method Init(prefersContrast: bool, prefersDark: bool)
      modifies this
      ensures state == old(state).(mode := if prefersContrast then HighContrast else if prefersDark then Dark else Light)
      ensures Element() == Rooted(fontKeys, old(Element()), state)
    {
      var initial := Light;
      if prefersContrast {
        initial := HighContrast;
      } else if prefersDark {
        initial := Dark;
      }
      state := state.(mode := initial);
      ApplyRoot();
    }

    /** The handler of each control: one field of the state, then `applyRoot`. */
    method Handle(e: Event)
      modifies this
      ensures state == Chosen(old(state), e)
      ensures Element() == Rooted(fontKeys, old(Element()), state)
    {
      match e {
        case ChooseTheme(theme) => state := state.(theme := theme);
        case ChooseMode(mode) => state := state.(mode := mode);
        case ChooseFont(font) => state := state.(font := font);
        case ChooseDensity(density) => state := state.(density := density);
        case ChooseCorners(corners) => state := state.(corners := corners);
      }
      ApplyRoot();
    }

    /** Start-up, then the controls in order. */
    method RunEvents(prefersContrast: bool, prefersDark: bool, events: seq<Event>)
      requires state == INITIAL
      modifies this
      ensures (state, Element()) == Run(fontKeys, old(Element()), InitialMode(prefersContrast, prefersDark), events)
    {
      Init(prefersContrast, prefersDark);
      for i := 0 to |events|
        invariant (state, Element()) ==
                  Run(fontKeys, old(Element()), InitialMode(prefersContrast, prefersDark), events[..i])
      {
        assert events[..i + 1][..i] == events[..i];
        Handle(events[i]);
      }
      assert events[..|events|] == events;
    }
  }

  // ----- whole runs -----

  /** State and root element after start-up in `mode` and a sequence of events. */
  function Run(fontKeys: seq<string>, root: Root, mode: Mode, events: seq<Event>): (State, Root) {
    if events == [] then
      var s := INITIAL.(mode := mode);
      (s, Rooted(fontKeys, root, s))
    else
      var n := |events| - 1;
      var (s, r) := Run(fontKeys, root, mode, events[..n]);
      var t := Chosen(s, events[n]);
      (t, Rooted(fontKeys, r, t))
  }

  // The last choice on each axis, read off the events alone.

  function LastTheme(events: seq<Event>): string {
    if events == [] then DEFAULT_THEME
    else match events[|events| - 1] case ChooseTheme(t) => t case _ => LastTheme(events[..|events| - 1])
  }

  function LastMode(initial: Mode, events: seq<Event>): Mode {
    if events == [] then initial
    else match events[|events| - 1] case ChooseMode(m) => m case _ => LastMode(initial, events[..|events| - 1])
  }

  function LastFont(events: seq<Event>): Option<string> {
    if events == [] then None
    else match events[|events| - 1] case ChooseFont(f) => f case _ => LastFont(events[..|events| - 1])
  }

  function LastDensity(events: seq<Event>): Density {
    if events == [] then Comfortable
    else match events[|events| - 1] case ChooseDensity(d) => d case _ => LastDensity(events[..|events| - 1])
  }

  function LastCorners(events: seq<Event>): Corners {
    if events == [] then Subtle
    else match events[|events| - 1] case ChooseCorners(c) => c case _ => LastCorners(events[..|events| - 1])
  }

  /** The controls offer the embedded fonts only. */
  predicate Offered(fontKeys: seq<string>, events: seq<Event>) {
    forall i | 0 <= i < |events| ::
      events[i].ChooseFont? && events[i].font.Some? ==> events[i].font.value in fontKeys
  }

  /** Classes that are not managed survive; those a state adds are all managed. */
  lemma AddedAreManaged(fontKeys: seq<string>, s: State)
    requires s.font.Some? ==> s.font.value in fontKeys
    ensures ClassesOf(s) <= Managed(fontKeys)
  {
  }

  /**
   After any run the state is the last choice on each axis, and the element is a function of that
   state and of the classes that were foreign at the start: no earlier choice leaves a trace.
   */
  lemma {:induction false} RootFollowsState(fontKeys: seq<string>, root: Root, mode: Mode, events: seq<Event>)
    requires Offered(fontKeys, events)
    ensures var (s, r) := Run(fontKeys, root, mode, events);
            && s == State(LastTheme(events), LastMode(mode, events), LastFont(events),
                          LastDensity(events), LastCorners(events))
            && (s.font.Some? ==> s.font.value in fontKeys)
            && r == Rooted(fontKeys, root, s)
            && r.classes - Managed(fontKeys) == root.classes - Managed(fontKeys)
  {
    hide Rooted, ClassesOf, Managed, AttributeOf;
    var (s, r) := Run(fontKeys, root, mode, events);
    if events != [] {
      var n := |events| - 1;
      RootFollowsState(fontKeys, root, mode, events[..n]);
      var (t, q) := Run(fontKeys, root, mode, events[..n]);
      RootedAbsorbs(fontKeys, root, t, s);
    }
    RootedAbsorbs(fontKeys, root, s, s);
  }

  /** Applying a state over another leaves nothing of the other. */
  lemma RootedAbsorbs(fontKeys: seq<string>, root: Root, t: State, s: State)
    requires t.font.Some? ==> t.font.value in fontKeys
    ensures Rooted(fontKeys, Rooted(fontKeys, root, t), s) == Rooted(fontKeys, root, s)
    ensures Rooted(fontKeys, root, t).classes - Managed(fontKeys) == root.classes - Managed(fontKeys)
  {
    AddedAreManaged(fontKeys, t);
    hide ClassesOf, Managed, AttributeOf;
    assert Rooted(fontKeys, root, t).classes - Managed(fontKeys) == root.classes - Managed(fontKeys);
  }

  // ----- what the page paints -----

  /** The sheet emits every embedded font, and the page starts with no class of an unembedded one. */
  ghost predicate Compatible(fonts: seq<Font>, groups: seq<string>, fontKeys: seq<string>, root: Root) {
    && DistinctKeys(Grouped(fonts, groups))
    && (forall k | k in fontKeys :: exists f :: f in Grouped(fonts, groups) && f.key == k)
    && (forall f | f in Grouped(fonts, groups) && FontClass(f.key) in root.classes :: f.key in fontKeys)
  }

  lemma FontClassIsOnNoOtherAxis(key: string)
    ensures FontClass(key) !in AXIS_CLASSES
  {
    assert FontClass(key)[0] == 'f';
  }

  /** Among the axis classes a state adds exactly its own. */
  lemma AxisClassesOf(s: State)
    ensures "dark" in ClassesOf(s) <==> s.mode.Dark?
    ensures "hc" in ClassesOf(s) <==> s.mode.HighContrast?
    ensures "density-compact" in ClassesOf(s) <==> s.density.Compact?
    ensures "density-spacious" in ClassesOf(s) <==> s.density.Spacious?
    ensures "radius-sharp" in ClassesOf(s) <==> s.corners.Sharp?
    ensures "radius-rounded" in ClassesOf(s) <==> s.corners.Rounded?
    ensures "radius-pill" in ClassesOf(s) <==> s.corners.Pill?
  {
    if s.font.Some? {
      FontClassIsOnNoOtherAxis(s.font.value);
    }
    assert |"dark"| == 4 && |"hc"| == 2 && |"density-compact"| == 15 && |"density-spacious"| == 16;
    assert |"radius-sharp"| == 12 && |"radius-rounded"| == 14 && |"radius-pill"| == 11;
  }

  /** The element of a state is in that state's mode, corners and density. */
  lemma ElementIsInItsState(fontKeys: seq<string>, root: Root, s: State)
    ensures var r := Rooted(fontKeys, root, s);
            InMode(r, s.mode) && InCorners(r, s.corners) && InDensity(r, s.density)
  {
    AxisClassesOf(s);
    var r := Rooted(fontKeys, root, s);
    forall c | c in AXIS_CLASSES ensures c in r.classes <==> c in ClassesOf(s) {
      assert c in Managed(fontKeys);
    }
    hide ClassesOf, Rooted;
    assert "dark" in AXIS_CLASSES && "hc" in AXIS_CLASSES;
    assert "density-compact" in AXIS_CLASSES && "density-spacious" in AXIS_CLASSES;
    assert "radius-sharp" in AXIS_CLASSES && "radius-rounded" in AXIS_CLASSES && "radius-pill" in AXIS_CLASSES;
  }

  lemma {:induction false} ElementHasItsFont(fonts: seq<Font>, groups: seq<string>, fontKeys: seq<string>,
                                             root: Root, s: State, f: Font)
    requires Compatible(fonts, groups, fontKeys, root)
    requires f in Grouped(fonts, groups)
    ensures FontClass(f.key) in Rooted(fontKeys, root, s).classes <==> s.font == Some(f.key)
  {
    hide Grouped;
    FontClassIsOnNoOtherAxis(f.key);
    AddedByOtherAxes(s);
    if s.font.Some? {
      FontClassesDiffer(f.key, s.font.value);
    }
  }

  lemma AddedByOtherAxes(s: State)
    ensures Singleton(ModeClass(s.mode)) + Singleton(DensityClass(s.density)) + Singleton(CornersClass(s.corners))
            <= AXIS_CLASSES
  {
  }

  /** A font stack, by the key of its font. */
  ghost predicate IsStackOf(stack: string, f: Font) {
    stack == "\"" + f.family + "\", " +
      (if f.key in {"merriweather", "lora", "ptserif", "librebaskerville", "ibmplexserif"}
       then "Georgia, \"Times New Roman\", serif" else "ui-sans-serif, system-ui, sans-serif")
  }

  /** The last choice of font is painted: the system stack, or the stack of an emitted font of that key. */
  ghost predicate PaintsFont(fonts: seq<Font>, groups: seq<string>, key: Option<string>, painted: Option<string>) {
    if key.None? then
      painted == Some("ui-sans-serif, system-ui, -apple-system, \"Segoe UI\", Roboto, sans-serif")
    else
      exists f :: f in Grouped(fonts, groups) && key == Some(f.key) && painted.Some? && IsStackOf(painted.value, f)
  }

  /**
   Over every run of control events, each property the page paints is decided by its own control
   alone: colours by the last theme and mode, the font by the last font, radii by the last corners
   and spacing by the last density.
   */
  lemma {:induction false} RunPaintsTheChoices(themes: seq<Theme>, fonts: seq<Font>, groups: seq<string>,
                                               fontKeys: seq<string>, root: Root, mode: Mode,
                                               events: seq<Event>, i: nat, q: Property)
    requires WellFormed(themes)
    requires Offered(fontKeys, events) && Compatible(fonts, groups, fontKeys, root)
    requires i < |themes| && themes[i].name == LastTheme(events)
    ensures var painted := Computed(Sheet(themes, fonts, groups), Run(fontKeys, root, mode, events).1, q);
            var corners, density := LastCorners(events), LastDensity(events);
            match q
            case Color(k) => painted == Some(
              match LastMode(mode, events)
              case Light => themes[i].light[k]
              case Dark => themes[i].dark[k]
              case HighContrast =>
                if k in {Primary, PrimaryHover, PrimaryActive, PrimaryForeground} then themes[i].hc[k] else themes[0].hc[k])
            case FontPortal => PaintsFont(fonts, groups, LastFont(events), painted)
            case RadiusControl => painted == Some(
              match corners case Sharp => "0" case Subtle => "6px" case Rounded => "10px" case Pill => "999px")
            case RadiusCard => painted == Some(
              match corners case Sharp => "0" case Subtle => "10px" case Rounded => "16px" case Pill => "20px")
            case RadiusSm => painted == Some(
              match corners case Sharp => "0" case Subtle => "4px" case Rounded => "6px" case Pill => "8px")
            case SpaceControlH => painted == Some(
              match density case Compact => "36px" case Comfortable => "44px" case Spacious => "52px")
            case SpaceControlPadX => painted == Some(
              match density case Compact => "0.6rem" case Comfortable => "0.9rem" case Spacious => "1.1rem")
            case SpaceFieldGap => painted == Some(
              match density case Compact => "1.3em" case Comfortable => "2em" case Spacious => "2.5em")
            case SpaceSectionPad => painted == Some(
              match density case Compact => "1.5rem" case Comfortable => "2.25rem" case Spacious => "2.9rem")
            case SpaceStack => painted == Some(
              match density case Compact => "0.35rem" case Comfortable => "0.5rem" case Spacious => "0.7rem")
  {
    hide COLOR_KEYS, Computed, Sheet, Rooted, InMode, InCorners, InDensity, PaintsFont, Run;
    RootFollowsState(fontKeys, root, mode, events);
    var (s, r) := Run(fontKeys, root, mode, events);
    ElementIsInItsState(fontKeys, root, s);
    match q {
      case Color(k) =>
        SheetPaintsTheTable(themes, fonts, groups, r, s.mode, k);
        AttributeSelects(themes, s, i, fontKeys, root);
      case FontPortal =>
        StatePaintsItsFont(themes, fonts, groups, fontKeys, root, s);
      case _ =>
        if q.IsRadius() {
          SheetPaintsTheCorners(themes, fonts, groups, r, s.corners, q);
        } else {
          SheetPaintsTheDensity(themes, fonts, groups, r, s.density, q);
        }
    }
  }

  lemma StatePaintsItsFont(themes: seq<Theme>, fonts: seq<Font>, groups: seq<string>, fontKeys: seq<string>, root: Root, s: State)
    requires WellFormed(themes) && Compatible(fonts, groups, fontKeys, root)
    requires s.font.Some? ==> s.font.value in fontKeys
    ensures PaintsFont(fonts, groups, s.font, Computed(Sheet(themes, fonts, groups), Rooted(fontKeys, root, s), FontPortal))
  {
    hide COLOR_KEYS, Computed, Sheet, Rooted, FontStack, FontClass, Grouped, IsStackOf;
    var r := Rooted(fontKeys, root, s);
    forall f | f in Grouped(fonts, groups)
      ensures FontClass(f.key) in r.classes <==> s.font == Some(f.key)
    {
      ElementHasItsFont(fonts, groups, fontKeys, root, s, f);
    }
    if s.font.None? {
      SheetPaintsTheFont(themes, fonts, groups, r, None);
    } else {
      var f :| f in Grouped(fonts, groups) && f.key == s.font.value;
      SheetPaintsTheFont(themes, fonts, groups, r, Some(f));
      StackIsOf(f);
    }
  }

  lemma StackIsOf(f: Font)
    ensures IsStackOf(FontStack(f), f)
  {
    hide FontStack;
    FontStackOf(f);
  }

  lemma {:induction false} AttributeSelects(themes: seq<Theme>, s: State, i: nat, fontKeys: seq<string>, root: Root)
    requires WellFormed(themes)
    requires i < |themes| && themes[i].name == s.theme
    ensures ThemeIndex(themes, Rooted(fontKeys, root, s).theme) == i
  {
    hide Managed, ClassesOf;
  }
}
