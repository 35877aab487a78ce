/** The token contract of the theme palettes, and `build_mode`, which fills one palette. */
module Tokens {
  import opened Wrappers
  import opened Srgb
  import opened Colour

  /** The colour keys, each the name of a `--color-...` custom property. */
  datatype Key =
    | Primary | PrimaryHover | PrimaryActive | PrimaryForeground
    | Secondary | SecondaryHover | SecondaryActive | SecondaryForeground
    | Danger | DangerHover | DangerActive | DangerForeground
    | DangerSubtle | DangerFg
    | Ghost | GhostHover | GhostActive
    | Info | InfoSubtle | InfoFg
    | Success | SuccessSubtle | SuccessFg
    | Warning | WarningSubtle | WarningFg
    | Text | TextMuted | Border | BorderStrong
    | Background | BackgroundMuted | Surface | SurfaceHover
    | FocusRing | Overlay

  const COLOR_KEYS: seq<Key> := [
    Primary, PrimaryHover, PrimaryActive, PrimaryForeground,
    Secondary, SecondaryHover, SecondaryActive, SecondaryForeground,
    Danger, DangerHover, DangerActive, DangerForeground,
    DangerSubtle, DangerFg,
    Ghost, GhostHover, GhostActive,
    Info, InfoSubtle, InfoFg,
    Success, SuccessSubtle, SuccessFg,
    Warning, WarningSubtle, WarningFg,
    Text, TextMuted, Border, BorderStrong,
    Background, BackgroundMuted, Surface, SurfaceHover,
    FocusRing, Overlay
  ]

  const HC_ACCENT_KEYS: seq<Key> := [Primary, PrimaryHover, PrimaryActive, PrimaryForeground]

  predicate IsAccent(k: Key) {
    k.Primary? || k.PrimaryHover? || k.PrimaryActive? || k.PrimaryForeground?
  }

  type Palette = map<Key, string>

  datatype Mode = Light | Dark | HighContrast

  /** Every colour key is emitted, and the accent keys are the four primary ones. */
  lemma {:induction false} KeyLists(k: Key)
    ensures k in COLOR_KEYS
    ensures k in HC_ACCENT_KEYS <==> IsAccent(k)
  {
    hide COLOR_KEYS;
    assert COLOR_KEYS[Position(k)] == k;
    AccentList(k);
  }

  lemma {:induction false} AccentList(k: Key)
    ensures k in HC_ACCENT_KEYS <==> IsAccent(k)
  {
    hide COLOR_KEYS;
    if IsAccent(k) {
      assert HC_ACCENT_KEYS[Position(k)] == k;
    }
  }

  ghost function Position(k: Key): (i: nat)
    ensures i < |COLOR_KEYS| && COLOR_KEYS[i] == k
    ensures IsAccent(k) ==> i < |HC_ACCENT_KEYS| && HC_ACCENT_KEYS[i] == k
  {
    match k
    case Primary => 0 case PrimaryHover => 1 case PrimaryActive => 2 case PrimaryForeground => 3
    case Secondary => 4 case SecondaryHover => 5 case SecondaryActive => 6 case SecondaryForeground => 7
    case Danger => 8 case DangerHover => 9 case DangerActive => 10 case DangerForeground => 11
    case DangerSubtle => 12 case DangerFg => 13
    case Ghost => 14 case GhostHover => 15 case GhostActive => 16
    case Info => 17 case InfoSubtle => 18 case InfoFg => 19
    case Success => 20 case SuccessSubtle => 21 case SuccessFg => 22
    case Warning => 23 case WarningSubtle => 24 case WarningFg => 25
    case Text => 26 case TextMuted => 27 case Border => 28 case BorderStrong => 29
    case Background => 30 case BackgroundMuted => 31 case Surface => 32 case SurfaceHover => 33
    case FocusRing => 34 case Overlay => 35
  }

  // ----- build_mode -----

  /** The anchors a theme gives for one mode; the six states are optional overrides. */
  datatype Anchors = Anchors(
    primary: string, primaryHover: Option<string>, primaryActive: Option<string>, primaryFg: string,
    secondary: string, secondaryHover: Option<string>, secondaryActive: Option<string>, secondaryFg: string,
    danger: string, dangerHover: Option<string>, dangerActive: Option<string>, dangerFgOnBtn: string,
    dangerSubtle: string, dangerFg: string,
    ghostHover: string, ghostActive: string,
    info: string, infoSubtle: string, infoFg: string,
    success: string, successSubtle: string, successFg: string,
    warning: string, warningSubtle: string, warningFg: string,
    text: string, textMuted: string, border: string, borderStrong: string,
    background: string, backgroundMuted: string, surface: string, surfaceHover: string,
    focusRing: string, overlay: string)

  function GetOr(override: Option<string>, derived: string): string {
    if override.Some? then override.value else derived
  }

  /** The button colours whose states are derived; `build_mode` raises unless all three are readable. */
  predicate Readable(c: Anchors) {
    HexToRgb(c.primary).Some? && HexToRgb(c.secondary).Some? && HexToRgb(c.danger).Some?
  }

  function HoverOf(h: string, dark: bool): (r: string)
    requires HexToRgb(h).Some?
    ensures Some(r) == Hover(h, dark) && HexToRgb(r).Some?
  {
    DerivedIsRead(h, dark, if dark then DARK_HOVER else LIGHT_HOVER);
    Hover(h, dark).value
  }

  function ActiveOf(h: string, dark: bool): (r: string)
    requires HexToRgb(h).Some?
    ensures Some(r) == Active(h, dark) && HexToRgb(r).Some?
  {
    DerivedIsRead(h, dark, if dark then DARK_ACTIVE else LIGHT_ACTIVE);
    Active(h, dark).value
  }

  function Filled(c: Anchors, dark: bool, k: Key): string
    requires Readable(c)
  {
    match k
    case Primary => c.primary
    case PrimaryHover => GetOr(c.primaryHover, HoverOf(c.primary, dark))
    case PrimaryActive => GetOr(c.primaryActive, ActiveOf(c.primary, dark))
    case PrimaryForeground => c.primaryFg
    case Secondary => c.secondary
    case SecondaryHover => GetOr(c.secondaryHover, HoverOf(c.secondary, dark))
    case SecondaryActive => GetOr(c.secondaryActive, ActiveOf(c.secondary, dark))
    case SecondaryForeground => c.secondaryFg
    case Danger => c.danger
    case DangerHover => GetOr(c.dangerHover, HoverOf(c.danger, dark))
    case DangerActive => GetOr(c.dangerActive, ActiveOf(c.danger, dark))
    case DangerForeground => c.dangerFgOnBtn
    case DangerSubtle => c.dangerSubtle
    case DangerFg => c.dangerFg
    case Ghost => "transparent"
    case GhostHover => c.ghostHover
    case GhostActive => c.ghostActive
    case Info => c.info
    case InfoSubtle => c.infoSubtle
    case InfoFg => c.infoFg
    case Success => c.success
    case SuccessSubtle => c.successSubtle
    case SuccessFg => c.successFg
    case Warning => c.warning
    case WarningSubtle => c.warningSubtle
    case WarningFg => c.warningFg
    case Text => c.text
    case TextMuted => c.textMuted
    case Border => c.border
    case BorderStrong => c.borderStrong
    case Background => c.background
    case BackgroundMuted => c.backgroundMuted
    case Surface => c.surface
    case SurfaceHover => c.surfaceHover
    case FocusRing => c.focusRing
    case Overlay => c.overlay
  }

  /**
   One palette from its anchors; `None` where the script raises.  The derived states are computed
   even when an override replaces them, so an unreadable button colour always raises.
   */
  function BuildMode(c: Anchors, dark: bool): (t: Option<Palette>)
    ensures t.None? <==> HexToRgb(c.primary).None? || HexToRgb(c.secondary).None? || HexToRgb(c.danger).None?
    ensures t.Some? ==> forall k: Key :: k in t.value
  {
    if !Readable(c) then None else
    var t := map k | k in COLOR_KEYS :: Filled(c, dark, k);
    assert forall k: Key :: k in t by {
      forall k: Key ensures k in t { KeyLists(k); }
    }
    Some(t)
  }

  lemma FilledIn(c: Anchors, dark: bool, k: Key)
    requires BuildMode(c, dark).Some?
    ensures Readable(c) && BuildMode(c, dark).value[k] == Filled(c, dark, k)
  {
    hide Readable;
    KeyLists(k);
  }

  // ----- the anchors -----

  /**
   Every anchor colour is the token of its own name, the ghost button has none, and each of the six states is the
   colour given for it or else derived from its own button's base.
   */
  lemma {:induction false} AnchorsAreTheirTokens(c: Anchors, dark: bool, k: Key)
    requires BuildMode(c, dark).Some?
    ensures var p := BuildMode(c, dark).value;
            match k
              case Primary => p[k] == c.primary case PrimaryForeground => p[k] == c.primaryFg case Secondary => p[k] == c.secondary
              case SecondaryForeground => p[k] == c.secondaryFg case Danger => p[k] == c.danger case DangerForeground => p[k] == c.dangerFgOnBtn
              case DangerSubtle => p[k] == c.dangerSubtle case DangerFg => p[k] == c.dangerFg case Ghost => p[k] == "transparent"
              case GhostHover => p[k] == c.ghostHover case GhostActive => p[k] == c.ghostActive case Info => p[k] == c.info
              case InfoSubtle => p[k] == c.infoSubtle case InfoFg => p[k] == c.infoFg case Success => p[k] == c.success
              case SuccessSubtle => p[k] == c.successSubtle case SuccessFg => p[k] == c.successFg case Warning => p[k] == c.warning
              case WarningSubtle => p[k] == c.warningSubtle case WarningFg => p[k] == c.warningFg case Text => p[k] == c.text
              case TextMuted => p[k] == c.textMuted case Border => p[k] == c.border case BorderStrong => p[k] == c.borderStrong
              case Background => p[k] == c.background case BackgroundMuted => p[k] == c.backgroundMuted case Surface => p[k] == c.surface
              case SurfaceHover => p[k] == c.surfaceHover case FocusRing => p[k] == c.focusRing case Overlay => p[k] == c.overlay
              case PrimaryHover => Some(p[PrimaryHover]) == if c.primaryHover.Some? then c.primaryHover else Hover(c.primary, dark)
              case PrimaryActive => Some(p[PrimaryActive]) == if c.primaryActive.Some? then c.primaryActive else Active(c.primary, dark)
              case SecondaryHover => Some(p[SecondaryHover]) == if c.secondaryHover.Some? then c.secondaryHover else Hover(c.secondary, dark)
              case SecondaryActive => Some(p[SecondaryActive]) == if c.secondaryActive.Some? then c.secondaryActive else Active(c.secondary, dark)
              case DangerHover => Some(p[DangerHover]) == if c.dangerHover.Some? then c.dangerHover else Hover(c.danger, dark)
              case DangerActive => Some(p[DangerActive]) == if c.dangerActive.Some? then c.dangerActive else Active(c.danger, dark)
  {
    hide BuildMode, HoverOf, ActiveOf, Hover, Active, Readable;
    FilledIn(c, dark, k);
  }

  // ----- buttons -----

  datatype Button = PrimaryButton | SecondaryButton | DangerButton

  /** Foreground, base, hover and active token. */
  function ButtonKeys(b: Button): (Key, Key, Key, Key) {
    match b
    case PrimaryButton => (PrimaryForeground, Primary, PrimaryHover, PrimaryActive)
    case SecondaryButton => (SecondaryForeground, Secondary, SecondaryHover, SecondaryActive)
    case DangerButton => (DangerForeground, Danger, DangerHover, DangerActive)
  }

  /** The hover and active colours the anchors give, if they do. */
  function GivenStates(c: Anchors, b: Button): (Option<string>, Option<string>) {
    match b
    case PrimaryButton => (c.primaryHover, c.primaryActive)
    case SecondaryButton => (c.secondaryHover, c.secondaryActive)
    case DangerButton => (c.dangerHover, c.dangerActive)
  }

  /** A button's state is the colour given for it, or else derived from the button's own base colour, in the mode's direction. */
  lemma StatesAreGivenOrDerived(c: Anchors, dark: bool, b: Button)
    requires BuildMode(c, dark).Some?
    ensures var p := BuildMode(c, dark).value;
            var (fg, base, hover, active) := ButtonKeys(b);
            && HexToRgb(p[base]).Some?
            && Some(p[hover]) == (if GivenStates(c, b).0.Some? then GivenStates(c, b).0 else Hover(p[base], dark))
            && Some(p[active]) == (if GivenStates(c, b).1.Some? then GivenStates(c, b).1 else Active(p[base], dark))
  {
    hide HexToRgb, Hover, Active, HoverOf, ActiveOf, BuildMode;
    var (fg, base, hover, active) := ButtonKeys(b);
    FilledIn(c, dark, base);
    FilledIn(c, dark, hover);
    FilledIn(c, dark, active);
  }
}
