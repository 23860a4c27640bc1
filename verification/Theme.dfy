/**
 * Themes as text, kernel/core/theme.c: one key=value line per setting out, any separated list
 * of pairs in.  Reading what was written restores a theme exactly when the theme is storable.
 */
module Theme {
  import opened Results
  import Json
  import opened ThemeText

  datatype Mode = Pretty | Boring
  datatype Controls = SignatureControls | WindowsControls
  datatype Wallpaper = Solid | Gradient | Image

  /** Fields and palette are held in table order; switches are 0 or 1. */
  datatype Theme = Theme(mode: Mode, scheme: string, palette: seq<nat>, family: Family, controls: Controls,
                         signatureCorners: bool, wallpaper: Wallpaper, fields: seq<nat>)

  datatype Result = Ok(theme: Theme) | Err(error: Error)

  /** What the C types guarantee. */
  predicate Shaped(t: Theme) {
    && |t.palette| == COLORS && |t.fields| == FIELDS
    && forall i | 0 <= i < FIELDS :: IsBool(i) ==> t.fields[i] <= 1
  }

  // ----- one pair -----

  const CUSTOM: string := "custom"

  /** `apply_pretty_defaults` and `apply_boring_defaults`: every setting is replaced. */
  function Defaults(m: Mode): Theme {
    match m
    case Pretty => Theme(Pretty, "default", SchemePalette(0), SchemeFamily(0), SignatureControls, true, Image,
                         [14, 1, 4, 8, 12, 1, 150, 1, 204, 235, 34, 1, 2, 1])
    case Boring => Theme(Boring, CUSTOM, BoringPalette(), Atkinson, SignatureControls, false, Solid,
                         [0, 0, 0, 0, 0, 0, 0, 0, 255, 255, 16, 1, 1, 1])
  }

  function ModeName(m: Mode): string { if m == Pretty then "pretty" else "boring" }

  function ApplyMode(value: string): Result {
    if value == ModeName(Pretty) then Ok(Defaults(Pretty))
    else if value == ModeName(Boring) then Ok(Defaults(Boring))
    else Err(EINVAL)
  }

  /** `theme_set_scheme`: palette, font, name and controls change together; "aether" is an old name. */
  function SetScheme(t: Theme, name: string): Result {
    var n := if name == "aether" then "default" else name;
    var i := FindScheme(n, 0);
    if i < 0 then Err(ENOENT)
    else Ok(t.(palette := SchemePalette(i), family := SchemeFamily(i), scheme := n,
               controls := if n == "windows" then WindowsControls else SignatureControls))
  }

  function ApplyScheme(t: Theme, value: string): Result {
    if value == CUSTOM then Ok(t.(scheme := CUSTOM)) else SetScheme(t, value)
  }

  function ApplyFamily(t: Theme, value: string): Result {
    var f := FamilyOf(value);
    if f.Some? then Ok(t.(family := f.value)) else Err(EINVAL)
  }

  function ControlsName(c: Controls): string { if c == WindowsControls then "windows" else "signature" }

  function ApplyControls(t: Theme, value: string): Result {
    if value == ControlsName(SignatureControls) then Ok(t.(controls := SignatureControls))
    else if value == ControlsName(WindowsControls) then Ok(t.(controls := WindowsControls))
    else Err(EINVAL)
  }

  function CornersName(signature: bool): string { if signature then "signature" else "round" }

  /** "square" is read but never written: it is "round" with radius 0. */
  function ApplyCorners(t: Theme, value: string): Result
    requires Shaped(t)
  {
    if value == CornersName(true) then Ok(t.(signatureCorners := true))
    else if value == CornersName(false) then Ok(t.(signatureCorners := false))
    else if value == "square" then Ok(t.(signatureCorners := false, fields := t.fields[0 := 0]))
    else Err(EINVAL)
  }

  function WallpaperName(w: Wallpaper): string {
    if w == Image then "image" else if w == Solid then "solid" else "gradient"
  }

  function ApplyWallpaper(t: Theme, value: string): Result {
    if value == WallpaperName(Solid) then Ok(t.(wallpaper := Solid))
    else if value == WallpaperName(Gradient) then Ok(t.(wallpaper := Gradient))
    else if value == WallpaperName(Image) then Ok(t.(wallpaper := Image))
    else Err(EINVAL)
  }

  function BoolName(v: nat): string { if v != 0 then "true" else "false" }

  /** The value of field `i` in a text, if the table allows it. */
  function FieldValue(i: nat, value: string): Option<nat> {
    if IsBool(i) then
      (if value == BoolName(1) then Some(1) else if value == BoolName(0) then Some(0) else None)
    else
      var v := NumberOf(value, FieldMax(i));
      if v.Some? && v.value >= FieldMin(i) then v else None
  }

  function ApplyField(t: Theme, i: nat, value: string): Result
    requires Shaped(t) && i < FIELDS
  {
    var v := FieldValue(i, value);
    if v.Some? then Ok(t.(fields := t.fields[i := v.value])) else Err(EINVAL)
  }

  /** A changed colour makes the scheme custom; a colour set to itself does not. */
  function ApplyColor(t: Theme, i: nat, value: string): Result
    requires Shaped(t) && i < COLORS
  {
    var v := ColorOf(value);
    if v.None? then Err(EINVAL)
    else Ok(t.(scheme := if t.palette[i] != v.value then CUSTOM else t.scheme, palette := t.palette[i := v.value]))
  }

  /** `theme_apply_pair` for key number `k`. */
  function ApplyAt(t: Theme, k: nat, value: string): Result
    requires Shaped(t) && k < KEYS
  {
    if k == 0 then ApplyMode(value)
    else if k == 1 then ApplyScheme(t, value)
    else if k == 2 then ApplyFamily(t, value)
    else if k == 3 then ApplyControls(t, value)
    else if k == 4 then ApplyCorners(t, value)
    else if k == 5 then ApplyWallpaper(t, value)
    else if k < FIRST_COLOR then ApplyField(t, k - FIRST_FIELD, value)
    else ApplyColor(t, k - FIRST_COLOR, value)
  }

  function ApplyPair(t: Theme, key: string, value: string): Result
    requires Shaped(t)
  {
    var k := FindName(key, 0);
    if k < 0 then Err(EINVAL) else ApplyAt(t, k, value)
  }

  // ----- what a pair does, key by key -----

  const SCHEME_NAMES: set<string> :=
    {"default", "paper", "blackout", "obsidian", "nord", "sunset", "macos", "windows", "omarchy"}

  /** A scheme is one of nine names, or the old name of the first. */
  lemma {:induction false} SchemeFound(name: string, k: nat)
    requires k <= SCHEMES
    ensures var i := FindScheme(name, k);
            if exists j: nat | k <= j < SCHEMES :: SchemeName(j) == name
            then k <= i < SCHEMES && SchemeName(i) == name else i == -1
    decreases SCHEMES - k
  {
    hide SchemeName;
    if k < SCHEMES && SchemeName(k) != name {
      SchemeFound(name, k + 1);
    }
  }

  lemma SchemeNames(name: string)
    ensures name in SCHEME_NAMES <==> FindScheme(name, 0) >= 0
    ensures FindScheme(name, 0) >= 0 ==> SchemeName(FindScheme(name, 0)) == name
  {
    SchemeFound(name, 0);
    assert SchemeName(0) == "default" && SchemeName(1) == "paper" && SchemeName(2) == "blackout";
    assert SchemeName(3) == "obsidian" && SchemeName(4) == "nord" && SchemeName(5) == "sunset";
    assert SchemeName(6) == "macos" && SchemeName(7) == "windows" && SchemeName(8) == "omarchy";
  }

  /**
   * Setting a scheme: which names there are, the font and the controls that come with each, and what
   * stays as it was.
   */
  lemma SchemeMeaning(t: Theme, value: string)
    ensures ApplyScheme(t, value).Ok? <==> value in SCHEME_NAMES + {"custom", "aether"}
    ensures value == "custom" ==> ApplyScheme(t, value) == Ok(t.(scheme := "custom"))
    ensures value in SCHEME_NAMES + {"aether"} ==>
      var u := ApplyScheme(t, value).theme;
      && u.scheme == (if value == "aether" then "default" else value)
      && u.controls == (if value == "windows" then WindowsControls else SignatureControls)
      && u.family == (if value in {"macos", "windows"} then Cascadia
                      else if value == "omarchy" then JetBrains else Atkinson)
      && u == t.(scheme := u.scheme, controls := u.controls, family := u.family, palette := u.palette)
  {
    hide SchemePalette, FindScheme;
    var n := if value == "aether" then "default" else value;
    SchemeNames(n);
    SchemeNames(value);
  }

  /** Every other pair changes its own setting and nothing else, but for the two cases spelled out. */
  lemma PairLeavesRest(t: Theme, k: nat, value: string)
    requires Shaped(t) && 2 <= k < KEYS && ApplyAt(t, k, value).Ok?
    ensures var u := ApplyAt(t, k, value).theme;
      && |u.fields| == FIELDS && |u.palette| == COLORS && u.mode == t.mode
      && (k != 2 ==> u.family == t.family) && (k != 3 ==> u.controls == t.controls)
      && (k != 4 ==> u.signatureCorners == t.signatureCorners) && (k != 5 ==> u.wallpaper == t.wallpaper)
      && (forall i | 0 <= i < FIELDS && FIRST_FIELD + i != k && !(k == 4 && i == 0) :: u.fields[i] == t.fields[i])
      && (k == 4 ==> u.fields[0] == if value == "square" then 0 else t.fields[0])
      && (forall i | 0 <= i < COLORS && FIRST_COLOR + i != k :: u.palette[i] == t.palette[i])
      && u.scheme == if u.palette == t.palette then t.scheme else "custom"
  {
    hide FamilyOf, FieldValue, ColorOf, ControlsName, WallpaperName;
    CornerWords();
  }

  lemma CornerWords()
    ensures CornersName(true) != "square" && CornersName(false) != "square"
  {
    assert |CornersName(true)| == 9 && |CornersName(false)| == 5;
  }

  /** The least and the greatest value of each field, by its key; the rest are switches. */
  const LIMITS: map<string, (nat, nat)> :=
    map["corner_radius" := (0, 64), "shadow_offset_x" := (0, 64), "shadow_offset_y" := (0, 64),
        "shadow_blur" := (0, 64), "animation_ms" := (0, 10000), "opacity" := (0, 255), "bar_opacity" := (0, 255),
        "titlebar_height" := (16, 64), "font_scale" := (1, 4)]

  const SWITCHES: set<string> := {"shadow", "animation", "transparency", "show_titlebar", "antialiased"}

  const PRETTY_FIELDS: map<string, nat> :=
    map["corner_radius" := 14, "shadow" := 1, "shadow_offset_x" := 4, "shadow_offset_y" := 8, "shadow_blur" := 12,
        "animation" := 1, "animation_ms" := 150, "transparency" := 1, "opacity" := 204, "bar_opacity" := 235,
        "titlebar_height" := 34, "show_titlebar" := 1, "font_scale" := 2, "antialiased" := 1]

  /** The presets, by key: "pretty" in full, and "boring" with nothing but a title bar and opaque, smooth text. */
  lemma PresetFields(i: nat)
    requires i < FIELDS
    ensures NameOf(FIRST_FIELD + i) in PRETTY_FIELDS
    ensures |Defaults(Pretty).fields| == FIELDS && Defaults(Pretty).fields[i] == PRETTY_FIELDS[NameOf(FIRST_FIELD + i)]
    ensures |Defaults(Boring).fields| == FIELDS
    ensures Defaults(Boring).fields[i] ==
            (if i == 8 || i == 9 then 255 else if i == 10 then 16 else if i >= 11 then 1 else 0)
  {
    hide SchemePalette, BoringPalette;
    PrettyField(i);
  }

  lemma PrettyField(i: nat)
    requires i < FIELDS
    ensures NameOf(FIRST_FIELD + i) in PRETTY_FIELDS
    ensures [14, 1, 4, 8, 12, 1, 150, 1, 204, 235, 34, 1, 2, 1][i] == PRETTY_FIELDS[NameOf(FIRST_FIELD + i)]
  {
  }

  lemma FieldTable(i: nat)
    requires i < FIELDS
    ensures IsBool(i) <==> NameOf(FIRST_FIELD + i) in SWITCHES
    ensures !IsBool(i) ==> NameOf(FIRST_FIELD + i) in LIMITS
                           && LIMITS[NameOf(FIRST_FIELD + i)] == (FieldMin(i), FieldMax(i))
  {
    if IsBool(i) {
      SwitchTable(i);
    } else {
      LimitTable(i);
      NotASwitch(i);
    }
  }

  lemma SwitchTable(i: nat)
    requires i < FIELDS && IsBool(i)
    ensures NameOf(FIRST_FIELD + i) in SWITCHES
  {
  }

  lemma LimitTable(i: nat)
    requires i < FIELDS && !IsBool(i)
    ensures NameOf(FIRST_FIELD + i) in LIMITS && LIMITS[NameOf(FIRST_FIELD + i)] == (FieldMin(i), FieldMax(i))
  {
  }

  lemma NotASwitch(i: nat)
    requires i < FIELDS && !IsBool(i)
    ensures NameOf(FIRST_FIELD + i) !in SWITCHES
  {
  }

  // ----- storable themes -----

  predicate InRange(fields: seq<nat>) {
    |fields| == FIELDS && forall i | 0 <= i < FIELDS :: FieldMin(i) <= fields[i] <= FieldMax(i)
  }

  /** A scheme name is only claimed by a theme that has its palette. */
  predicate SchemeTrue(t: Theme) {
    t.scheme == CUSTOM || (FindScheme(t.scheme, 0) >= 0 && t.palette == SchemePalette(FindScheme(t.scheme, 0)))
  }

  predicate Storable(t: Theme) { InRange(t.fields) && IsPalette(t.palette) && SchemeTrue(t) }

  lemma StorableShaped(t: Theme)
    requires Storable(t)
    ensures Shaped(t)
  {
    forall i | 0 <= i < FIELDS ensures IsBool(i) ==> t.fields[i] <= 1 {
      assert FieldMin(i) <= t.fields[i] <= FieldMax(i);
    }
  }

  lemma DefaultsStorable(m: Mode)
    ensures Storable(Defaults(m))
  {
    hide SchemePalette, BoringPalette, IsPalette;
    SchemePaletteOk(0);
    assert FindScheme("default", 0) == 0;
  }

  lemma FieldValueInRange(i: nat, value: string)
    requires i < FIELDS
    ensures var v := FieldValue(i, value); v.Some? ==> FieldMin(i) <= v.value <= FieldMax(i)
  {
    hide NumberOf;
    NumberBound(value, FieldMax(i));
  }

  lemma NumberBound(text: string, max: nat)
    ensures NumberOf(text, max).Some? ==> NumberOf(text, max).value <= max
  {
  }

  /** Every accepted pair leaves a storable theme storable, and a mode makes any theme storable. */
  lemma PairKeepsStorable(t: Theme, k: nat, value: string)
    requires Shaped(t) && k < KEYS && (k == 0 || Storable(t))
    ensures var r := ApplyAt(t, k, value); r.Ok? ==> Storable(r.theme)
  {
    hide SchemePalette, SchemeFamily, IsPalette, InRange, FamilyOf, FamilyName, FindScheme, FieldValue, ColorOf,
      Defaults, ModeName, ControlsName, CornersName, WallpaperName;
    if k == 0 {
      DefaultsStorable(Pretty);
      DefaultsStorable(Boring);
    } else if k == 1 {
      SchemeKeeps(t, value);
    } else if k == 4 {
      SetFieldKeeps(t, 0, 0);
    } else if FIRST_FIELD <= k < FIRST_COLOR {
      FieldKeeps(t, k - FIRST_FIELD, value);
    } else if k >= FIRST_COLOR {
      ColorKeeps(t, k - FIRST_COLOR, value);
    }
  }

  lemma SchemeKeeps(t: Theme, value: string)
    requires Storable(t)
    ensures var r := ApplyScheme(t, value); r.Ok? ==> Storable(r.theme)
  {
    hide SchemePalette, SchemeFamily, IsPalette, InRange, FindScheme;
    var n := if value == "aether" then "default" else value;
    var i := FindScheme(n, 0);
    if i >= 0 {
      SchemePaletteOk(i);
    }
  }

  lemma SetFieldKeeps(t: Theme, i: nat, v: nat)
    requires Storable(t) && i < FIELDS && FieldMin(i) <= v <= FieldMax(i)
    ensures |t.fields| == FIELDS && InRange(t.fields[i := v])
  {
    hide SchemeTrue, IsPalette;
  }

  lemma FieldKeeps(t: Theme, i: nat, value: string)
    requires Shaped(t) && Storable(t) && i < FIELDS
    ensures var r := ApplyField(t, i, value); r.Ok? ==> Storable(r.theme)
  {
    hide IsPalette, InRange, FieldValue, FindScheme, SchemePalette;
    FieldValueInRange(i, value);
    var v := FieldValue(i, value);
    if v.Some? {
      SetFieldKeeps(t, i, v.value);
    }
  }

  lemma ColorKeeps(t: Theme, i: nat, value: string)
    requires Shaped(t) && Storable(t) && i < COLORS
    ensures var r := ApplyColor(t, i, value); r.Ok? ==> Storable(r.theme)
  {
    hide InRange, ColorOf, FindScheme, SchemePalette;
    ColorBound(value);
    var v := ColorOf(value);
    if v.Some? && t.palette[i] == v.value {
      assert t.palette[i := v.value] == t.palette;
    }
  }

  // ----- a whole text -----

  predicate Sep(c: char) { c == ';' || c == '\n' || c == '\r' }

  /** The length of the pair a text starts with. */
  function SegLen(s: string): (n: nat)
    ensures n <= |s| && (forall k | 0 <= k < n :: !Sep(s[k])) && (n < |s| ==> Sep(s[n]))
  {
    if |s| == 0 || Sep(s[0]) then 0 else 1 + SegLen(s[1..])
  }

  function Equals(pair: string): (e: nat)
    ensures e <= |pair| && (forall k | 0 <= k < e :: pair[k] != '=') && (e < |pair| ==> pair[e] == '=')
  {
    if |pair| == 0 || pair[0] == '=' then 0 else 1 + Equals(pair[1..])
  }

  /** A pair needs a key and a value; the first equals sign parts them. */
  function ApplySegment(t: Theme, pair: string): Result
    requires Shaped(t)
  {
    var e := Equals(pair);
    if e == 0 || e + 1 >= |pair| then Err(EINVAL) else ApplyPair(t, pair[..e], pair[e + 1..])
  }

  const PAIR_MAX: nat := 95

  /** `anx_theme_apply_config_checked`: the pairs in order, at least one, none skipped. */
  function ApplyFrom(t: Theme, s: string, any: bool): Result
    requires Shaped(t)
    decreases |s|
  {
    if |s| == 0 then (if any then Ok(t) else Err(EINVAL))
    else if Sep(s[0]) then ApplyFrom(t, s[1..], any)
    else
      var n := SegLen(s);
      if n > PAIR_MAX then Err(EINVAL)
      else
        var r := ApplySegment(t, s[..n]);
        if r.Err? then r else SegmentShaped(t, s[..n]); ApplyFrom(r.theme, s[n..], true)
  }

  lemma PairShaped(t: Theme, k: nat, value: string)
    requires Shaped(t) && k < KEYS
    ensures var r := ApplyAt(t, k, value); r.Ok? ==> Shaped(r.theme)
  {
    hide SchemePalette, SchemeFamily, FamilyOf, FamilyName, FindScheme, FieldValue, ColorOf, Defaults, ModeName,
      ControlsName, CornersName, WallpaperName, IsPalette;
    if k == 0 {
      DefaultsStorable(Pretty);
      DefaultsStorable(Boring);
      StorableShaped(Defaults(Pretty));
      StorableShaped(Defaults(Boring));
    } else if k == 1 {
      SchemeShaped(t, value);
    } else if FIRST_FIELD <= k < FIRST_COLOR {
      FieldValueInRange(k - FIRST_FIELD, value);
    }
  }

  lemma SchemeShaped(t: Theme, value: string)
    requires Shaped(t)
    ensures var r := ApplyScheme(t, value); r.Ok? ==> Shaped(r.theme)
  {
    hide SchemePalette, SchemeFamily, FindScheme;
    var i := FindScheme(if value == "aether" then "default" else value, 0);
    if i >= 0 {
      SchemePaletteOk(i);
    }
  }

  lemma SegmentShaped(t: Theme, pair: string)
    requires Shaped(t)
    ensures var r := ApplySegment(t, pair); r.Ok? ==> Shaped(r.theme)
  {
    hide ApplyAt, FindName;
    var e := Equals(pair);
    if 0 < e && e + 1 < |pair| {
      var k := FindName(pair[..e], 0);
      if k >= 0 {
        PairShaped(t, k, pair[e + 1..]);
      }
    }
  }

  lemma SegmentKeepsStorable(t: Theme, pair: string)
    requires Shaped(t) && Storable(t)
    ensures var r := ApplySegment(t, pair); r.Ok? ==> Storable(r.theme)
  {
    hide ApplyAt, FindName, Storable;
    var e := Equals(pair);
    if 0 < e && e + 1 < |pair| {
      var k := FindName(pair[..e], 0);
      if k >= 0 {
        PairKeepsStorable(t, k, pair[e + 1..]);
      }
    }
  }

  /** Being storable survives every accepted text. */
  lemma {:induction false} TextKeepsStorable(t: Theme, s: string, any: bool)
    requires Shaped(t) && Storable(t)
    ensures var r := ApplyFrom(t, s, any); r.Ok? ==> Storable(r.theme)
    decreases |s|
  {
    hide ApplySegment, Storable, Shaped;
    if |s| > 0 {
      if Sep(s[0]) {
        TextKeepsStorable(t, s[1..], any);
      } else {
        var n := SegLen(s);
        SegmentShaped(t, s[..n]);
        SegmentKeepsStorable(t, s[..n]);
        var r := ApplySegment(t, s[..n]);
        if n <= PAIR_MAX && r.Ok? {
          TextKeepsStorable(r.theme, s[n..], true);
        }
      }
    }
  }

  // ----- writing -----

  /** `anx_theme_current_scheme`. */
  function ShownScheme(t: Theme): string { if |t.scheme| > 0 then t.scheme else CUSTOM }

  function FieldText(i: nat, v: nat): string { if IsBool(i) then BoolName(v) else Json.PrintNat(v) }

  /** The text of setting `k`. */
  function ValueText(t: Theme, k: nat): string
    requires Shaped(t) && k < KEYS
  {
    if k == 0 then ModeName(t.mode)
    else if k == 1 then ShownScheme(t)
    else if k == 2 then FamilyName(t.family)
    else if k == 3 then ControlsName(t.controls)
    else if k == 4 then CornersName(t.signatureCorners)
    else if k == 5 then WallpaperName(t.wallpaper)
    else if k < FIRST_COLOR then FieldText(k - FIRST_FIELD, t.fields[k - FIRST_FIELD])
    else PrintColor(t.palette[k - FIRST_COLOR])
  }

  function Line(key: string, value: string): (s: string)
    ensures |s| == |key| + |value| + 2
  {
    key + "=" + value + "\n"
  }

  /** The lines from setting `k` on. */
  function Text(t: Theme, k: nat): string
    requires Shaped(t) && k <= KEYS
    decreases KEYS - k
  {
    if k == KEYS then "" else Line(NameOf(k), ValueText(t, k)) + Text(t, k + 1)
  }

  // ----- reading a line back -----

  /** Nothing in a word parts a text, and it is not empty. */
  predicate Word(s: string) { |s| > 0 && forall c | c in s :: !Sep(c) }

  predicate KeyWord(s: string) { Word(s) && '=' !in s }

  lemma {:induction false} SegLenWord(w: string, rest: string)
    requires (forall c | c in w :: !Sep(c)) && (|rest| == 0 || Sep(rest[0]))
    ensures SegLen(w + rest) == |w|
  {
    if |w| > 0 {
      assert (w + rest)[1..] == w[1..] + rest;
      SegLenWord(w[1..], rest);
    } else {
      assert w + rest == rest;
    }
  }

  lemma {:induction false} EqualsWord(key: string, rest: string)
    requires '=' !in key && (|rest| > 0 && rest[0] == '=')
    ensures Equals(key + rest) == |key|
  {
    if |key| > 0 {
      assert (key + rest)[1..] == key[1..] + rest;
      EqualsWord(key[1..], rest);
    } else {
      assert key + rest == rest;
    }
  }

  lemma SegmentOfPair(t: Theme, key: string, value: string)
    requires Shaped(t) && KeyWord(key) && |value| > 0
    ensures ApplySegment(t, key + "=" + value) == ApplyPair(t, key, value)
  {
    hide ApplyPair, Equals;
    var pair := key + "=" + value;
    assert pair == key + ("=" + value);
    EqualsWord(key, "=" + value);
    assert pair[..|key|] == key && pair[|key| + 1..] == value;
  }

  /** A line is its pair: the pair is applied and reading goes on behind the line. */
  lemma LineApplies(t: Theme, key: string, value: string, rest: string, any: bool)
    requires Shaped(t) && KeyWord(key) && Word(value) && |key| + 1 + |value| <= PAIR_MAX
    ensures var r := ApplyPair(t, key, value);
            && (r.Ok? ==>
                  Shaped(r.theme) && ApplyFrom(t, Line(key, value) + rest, any) == ApplyFrom(r.theme, rest, true))
            && (r.Err? ==> ApplyFrom(t, Line(key, value) + rest, any) == r)
  {
    hide ApplyPair, ApplySegment, SegLen, Shaped;
    var pair, behind := key + "=" + value, "\n" + rest;
    var s := Line(key, value) + rest;
    assert s == pair + behind;
    SegLenWord(pair, behind);
    assert s[..|pair|] == pair && s[|pair|..] == behind && s[0] == key[0];
    assert !Sep(s[0]) by {
      assert key[0] in key;
    }
    SegmentOfPair(t, key, value);
    SegmentShaped(t, pair);
    assert behind[1..] == rest;
  }

  // ----- every key and value is a word -----

  function Letter(c: char): bool { 'a' <= c <= 'z' || '0' <= c <= '9' || c == '_' || c == '-' }

  predicate Letters(s: string) { forall k | 0 <= k < |s| :: Letter(s[k]) }

  lemma LettersWord(s: string)
    requires Letters(s) && |s| > 0
    ensures KeyWord(s)
  {
    forall c | c in s ensures !Sep(c) && c != '=' {
      var k :| 0 <= k < |s| && s[k] == c;
      assert Letter(s[k]);
    }
  }

  lemma KeyLetters0(k: nat)
    requires 0 <= k < 6
    ensures Letters(NameOf(k))
  {
  }

  lemma KeyLetters6(k: nat)
    requires 6 <= k < 12
    ensures Letters(NameOf(k))
  {
  }

  lemma KeyLetters12(k: nat)
    requires 12 <= k < 18
    ensures Letters(NameOf(k))
  {
  }

  lemma KeyLetters18(k: nat)
    requires 18 <= k < 24
    ensures Letters(NameOf(k))
  {
  }

  lemma KeyLetters24(k: nat)
    requires 24 <= k < 30
    ensures Letters(NameOf(k))
  {
  }

  lemma KeyLetters30(k: nat)
    requires 30 <= k < 36
    ensures Letters(NameOf(k))
  {
  }

  lemma KeyLetters36(k: nat)
    requires 36 <= k < 42
    ensures Letters(NameOf(k))
  {
  }

  lemma KeyLetters42(k: nat)
    requires 42 <= k < 43
    ensures Letters(NameOf(k))
  {
  }

  lemma KeyIsWord(k: nat)
    requires k < KEYS
    ensures KeyWord(NameOf(k)) && |NameOf(k)| <= 15
  {
    hide NameOf, Letters, KeyWord;
    if k < 6 {
      KeyLetters0(k);
    } else if k < 12 {
      KeyLetters6(k);
    } else if k < 18 {
      KeyLetters12(k);
    } else if k < 24 {
      KeyLetters18(k);
    } else if k < 30 {
      KeyLetters24(k);
    } else if k < 36 {
      KeyLetters30(k);
    } else if k < 42 {
      KeyLetters36(k);
    } else {
      KeyLetters42(k);
    }
    NameMark(k);
    LettersWord(NameOf(k));
  }

  lemma ModeLetters(m: Mode)
    ensures Letters(ModeName(m))
  {
  }

  lemma FamilyLetters(f: Family)
    ensures Letters(FamilyName(f))
  {
  }

  lemma SwitchLetters(t: Theme)
    ensures Letters(ControlsName(t.controls)) && Letters(CornersName(t.signatureCorners))
    ensures Letters(WallpaperName(t.wallpaper))
  {
  }

  lemma SchemeLetters(i: nat)
    ensures Letters(SchemeName(i)) && Letters(CUSTOM)
  {
  }

  /** The values of a storable theme are short words. */
  lemma ValueIsWord(t: Theme, k: nat)
    requires Shaped(t) && Storable(t) && k < KEYS
    ensures Word(ValueText(t, k)) && |ValueText(t, k)| <= 26
  {
    hide InRange, IsPalette, SchemePalette, FindScheme, SchemeName, FamilyName, PrintColor, Letters, Word, FieldText;
    if k < FIRST_FIELD {
      ModeLetters(t.mode);
      FamilyLetters(t.family);
      SwitchLetters(t);
      if k == 1 {
        SchemeShown(t);
      } else {
        FamilyRoundTrip(t.family);
        LettersWord(ValueText(t, k));
      }
    } else if k < FIRST_COLOR {
      FieldIsWord(t, k - FIRST_FIELD);
    } else {
      ColorIsWord(t, k - FIRST_COLOR);
    }
  }

  lemma SchemeShown(t: Theme)
    requires SchemeTrue(t)
    ensures ShownScheme(t) == t.scheme && Word(t.scheme) && |t.scheme| <= 8
  {
    hide SchemePalette, FindScheme, SchemeName, Letters, Word;
    if t.scheme == CUSTOM {
      SchemeLetters(0);
    } else {
      var i := FindScheme(t.scheme, 0);
      SchemeLetters(i);
      SchemeWord(i);
    }
    LettersWord(t.scheme);
  }

  lemma FieldIsWord(t: Theme, i: nat)
    requires InRange(t.fields) && i < FIELDS
    ensures Word(FieldText(i, t.fields[i])) && |FieldText(i, t.fields[i])| <= 5
  {
    var v := t.fields[i];
    assert v <= 10000;
    ShortPrinted(v);
    NumberPrinted(v, 10000);
    BoolLetters(v);
    assert Letters(FieldText(i, v));
    LettersWord(FieldText(i, v));
  }

  lemma BoolLetters(v: nat)
    ensures Letters(BoolName(v)) && 4 <= |BoolName(v)| <= 5
  {
  }

  lemma ColorIsWord(t: Theme, i: nat)
    requires IsPalette(t.palette) && i < COLORS
    ensures Word(PrintColor(t.palette[i])) && |PrintColor(t.palette[i])| == 6
  {
    hide PrintColor;
    ColorPrinted(t.palette[i]);
    assert Letters(PrintColor(t.palette[i]));
    LettersWord(PrintColor(t.palette[i]));
  }

  /** One setting of a storable theme, read back by key and value. */
  lemma SettingApplies(t: Theme, theme: Theme, k: nat, any: bool)
    requires Shaped(t) && Shaped(theme) && Storable(theme) && k < KEYS
    ensures var r := ApplyAt(t, k, ValueText(theme, k));
            && (r.Ok? ==>
                  Shaped(r.theme) && ApplyFrom(t, Text(theme, k), any) == ApplyFrom(r.theme, Text(theme, k + 1), true))
            && (r.Err? ==> ApplyFrom(t, Text(theme, k), any) == r)
  {
    hide ApplyAt, ApplyFrom, NameOf, ValueText, FindName, Storable, Shaped, KeyWord, Word, Line;
    KeyIsWord(k);
    ValueIsWord(theme, k);
    FindsItself(0, k);
    LineApplies(t, NameOf(k), ValueText(theme, k), Text(theme, k + 1), any);
  }

  // ----- the round trip -----

  /** `t` has taken over the first `k` settings of `theme`. */
  ghost predicate Taken(t: Theme, theme: Theme, k: nat)
    requires Shaped(t) && Shaped(theme) && FIRST_FIELD <= k <= KEYS
  {
    && t.mode == theme.mode && t.family == theme.family && t.controls == theme.controls
    && t.signatureCorners == theme.signatureCorners && t.wallpaper == theme.wallpaper
    && t.scheme == theme.scheme && (theme.scheme != CUSTOM ==> t.palette == theme.palette)
    && (forall i | 0 <= i < FIELDS && FIRST_FIELD + i < k :: t.fields[i] == theme.fields[i])
    && (forall i | 0 <= i < COLORS && FIRST_COLOR + i < k :: t.palette[i] == theme.palette[i])
  }

  lemma TakesField(t: Theme, theme: Theme, i: nat)
    requires Shaped(t) && Storable(theme) && Shaped(theme) && i < FIELDS && Taken(t, theme, FIRST_FIELD + i)
    ensures var r := ApplyAt(t, FIRST_FIELD + i, ValueText(theme, FIRST_FIELD + i));
            r.Ok? && Shaped(r.theme) && Taken(r.theme, theme, FIRST_FIELD + i + 1)
  {
    hide FieldValue, FieldText, IsPalette, SchemeTrue;
    FieldRoundTrip(i, theme.fields[i]);
  }

  lemma FieldRoundTrip(i: nat, v: nat)
    requires i < FIELDS && FieldMin(i) <= v <= FieldMax(i)
    ensures FieldValue(i, FieldText(i, v)) == Some(v)
  {
    NumberPrinted(v, FieldMax(i));
    assert |BoolName(0)| == 5 && |BoolName(1)| == 4;
  }

  lemma TakesColor(t: Theme, theme: Theme, i: nat)
    requires Shaped(t) && Storable(theme) && Shaped(theme) && i < COLORS && Taken(t, theme, FIRST_COLOR + i)
    ensures var r := ApplyAt(t, FIRST_COLOR + i, ValueText(theme, FIRST_COLOR + i));
            r.Ok? && Shaped(r.theme) && Taken(r.theme, theme, FIRST_COLOR + i + 1)
  {
    hide ColorOf, PrintColor, InRange, SchemeTrue;
    ColorPrinted(theme.palette[i]);
    var v := theme.palette[i];
    if theme.scheme != CUSTOM {
      assert t.palette[i := v] == t.palette;
    }
  }

  /** From the first field on, each setting is taken over; at the end nothing is missing. */
  lemma {:induction false} TakesRest(t: Theme, theme: Theme, k: nat)
    requires Shaped(t) && Shaped(theme) && Storable(theme) && FIRST_FIELD <= k <= KEYS && Taken(t, theme, k)
    ensures ApplyFrom(t, Text(theme, k), true) == Ok(theme)
    decreases KEYS - k
  {
    hide ApplyFrom, ApplyAt, ValueText, Storable, Shaped, Text, Taken;
    if k == KEYS {
      AllTaken(t, theme);
      NothingLeft(t, theme);
    } else {
      SettingApplies(t, theme, k, true);
      if k < FIRST_COLOR {
        TakesField(t, theme, k - FIRST_FIELD);
      } else {
        TakesColor(t, theme, k - FIRST_COLOR);
      }
      TakesRest(ApplyAt(t, k, ValueText(theme, k)).theme, theme, k + 1);
    }
  }

  lemma NothingLeft(t: Theme, theme: Theme)
    requires Shaped(t) && Shaped(theme)
    ensures ApplyFrom(t, Text(theme, KEYS), true) == Ok(t)
  {
  }

  lemma AllTaken(t: Theme, theme: Theme)
    requires Shaped(t) && Shaped(theme) && Taken(t, theme, KEYS)
    ensures t == theme
  {
    assert t.fields == theme.fields;
    assert t.palette == theme.palette;
  }

  lemma ModeRoundTrip(m: Mode)
    ensures ApplyMode(ModeName(m)) == Ok(Defaults(m))
  {
    assert ModeName(Pretty)[0] != ModeName(Boring)[0];
  }

  /** The first six settings, whatever theme was there before. */
  lemma TakesHead(prior: Theme, theme: Theme)
    requires Shaped(prior) && Shaped(theme) && Storable(theme)
    ensures exists t | Shaped(t) :: Taken(t, theme, FIRST_FIELD) &&
                                    ApplyFrom(prior, Text(theme, 0), false) ==
                                      ApplyFrom(t, Text(theme, FIRST_FIELD), true)
  {
    hide ApplyFrom, Storable, Shaped, Text, Defaults, ApplyScheme, ApplyAt, ValueText;
    SettingApplies(prior, theme, 0, false);
    HeadSettings(prior, theme);
    var t1 := Defaults(theme.mode);
    DefaultsMode(theme.mode);
    SettingApplies(t1, theme, 1, true);
    HeadSettings(t1, theme);
    SchemeTaken(t1, theme);
    var t2 := ApplyScheme(t1, theme.scheme).theme;
    SettingApplies(t2, theme, 2, true);
    HeadSettings(t2, theme);
    var t3 := t2.(family := theme.family);
    SettingApplies(t3, theme, 3, true);
    HeadSettings(t3, theme);
    var t4 := t3.(controls := theme.controls);
    SettingApplies(t4, theme, 4, true);
    HeadSettings(t4, theme);
    var t5 := t4.(signatureCorners := theme.signatureCorners);
    SettingApplies(t5, theme, 5, true);
    HeadSettings(t5, theme);
    assert Taken(t5.(wallpaper := theme.wallpaper), theme, FIRST_FIELD);
  }

  lemma HeadSettings(t: Theme, theme: Theme)
    requires Shaped(t) && Shaped(theme) && Storable(theme)
    ensures ApplyAt(t, 0, ValueText(theme, 0)) == Ok(Defaults(theme.mode))
    ensures ApplyAt(t, 1, ValueText(theme, 1)) == ApplyScheme(t, theme.scheme)
    ensures ApplyAt(t, 2, ValueText(theme, 2)) == Ok(t.(family := theme.family))
    ensures ApplyAt(t, 3, ValueText(theme, 3)) == Ok(t.(controls := theme.controls))
    ensures ApplyAt(t, 4, ValueText(theme, 4)) == Ok(t.(signatureCorners := theme.signatureCorners))
    ensures ApplyAt(t, 5, ValueText(theme, 5)) == Ok(t.(wallpaper := theme.wallpaper))
  {
    hide Storable, Shaped, Defaults, ApplyMode, ApplyScheme, ModeName, FamilyName, FamilyOf, ControlsName, CornersName,
      WallpaperName, ApplyControls, ApplyCorners, ApplyWallpaper;
    ModeRoundTrip(theme.mode);
    SchemeTaken(t, theme);
    FamilyRoundTrip(theme.family);
    SwitchRoundTrip(t, theme);
  }

  lemma DefaultsMode(m: Mode)
    ensures Defaults(m).mode == m
  {
  }

  lemma SchemeTaken(t: Theme, theme: Theme)
    requires Storable(theme)
    ensures ShownScheme(theme) == theme.scheme
    ensures var r := ApplyScheme(t, theme.scheme);
            r.Ok? && r.theme.scheme == theme.scheme && r.theme.mode == t.mode &&
            (theme.scheme != CUSTOM ==> r.theme.palette == theme.palette)
  {
    hide InRange, IsPalette, SchemePalette, SchemeFamily, FindScheme, SchemeName;
    SchemeShown(theme);
    if theme.scheme != CUSTOM {
      SchemeWord(FindScheme(theme.scheme, 0));
    }
  }

  lemma SwitchRoundTrip(t: Theme, theme: Theme)
    requires Shaped(t)
    ensures ApplyControls(t, ControlsName(theme.controls)) == Ok(t.(controls := theme.controls))
    ensures ApplyCorners(t, CornersName(theme.signatureCorners)) == Ok(t.(signatureCorners := theme.signatureCorners))
    ensures ApplyWallpaper(t, WallpaperName(theme.wallpaper)) == Ok(t.(wallpaper := theme.wallpaper))
  {
    assert |ControlsName(SignatureControls)| == 9 && |ControlsName(WindowsControls)| == 7;
    assert |CornersName(true)| == 9 && |CornersName(false)| == 5;
    assert |WallpaperName(Gradient)| == 8 && WallpaperName(Solid)[0] != WallpaperName(Image)[0];
  }

  /** A theme's text starts with its mode, so what it makes of any theme is storable. */
  lemma TextMakesStorable(prior: Theme, theme: Theme)
    requires Shaped(prior) && Shaped(theme)
    ensures var r := ApplyFrom(prior, Text(theme, 0), false); r.Ok? ==> Storable(r.theme)
  {
    hide ApplyFrom, Storable, Shaped, Defaults, FindName, NameOf, ModeName, KeyWord, Word, Line;
    var m := theme.mode;
    KeyIsWord(0);
    ModeIsWord(m);
    FindsItself(0, 0);
    ModeRoundTrip(m);
    LineApplies(prior, NameOf(0), ModeName(m), Text(theme, 1), false);
    DefaultsStorable(m);
    TextKeepsStorable(Defaults(m), Text(theme, 1), true);
  }

  lemma ModeIsWord(m: Mode)
    ensures Word(ModeName(m)) && |ModeName(m)| == 6
  {
    assert Letters(ModeName(m));
    LettersWord(ModeName(m));
  }

  /**
   * Reading back a theme's own text, over any earlier theme, restores it exactly if and only if
   * its fields are in table range, its colours have 24 bits and a scheme name it bears fits its palette.
   */
  lemma RoundTrip(prior: Theme, theme: Theme)
    requires Shaped(prior) && Shaped(theme)
    ensures ApplyFrom(prior, Text(theme, 0), false) == Ok(theme) <==> Storable(theme)
  {
    hide ApplyFrom, Storable, Shaped, Text;
    TextMakesStorable(prior, theme);
    if Storable(theme) {
      TakesHead(prior, theme);
      var t :| Shaped(t) && Taken(t, theme, FIRST_FIELD) &&
               ApplyFrom(prior, Text(theme, 0), false) == ApplyFrom(t, Text(theme, FIRST_FIELD), true);
      TakesRest(t, theme, FIRST_FIELD);
    }
  }

  // ----- the code -----

  /** The key search of `theme_apply_pair`. */
  method Lookup(key: string) returns (k: int)
    ensures k == FindName(key, 0)
  {
    hide NameOf;
    var i := 0;
    while i < KEYS
      invariant 0 <= i <= KEYS && FindName(key, 0) == FindName(key, i)
    {
      if NameOf(i) == key {
        return i;
      }
      i := i + 1;
    }
    return -1;
  }

  /** `theme_apply_pair`, with the parsing loops. */
  method Apply(t: Theme, key: string, value: string) returns (r: Result)
    requires Shaped(t)
    ensures r == ApplyPair(t, key, value)
  {
    hide NumberOf, ColorOf, Defaults, SchemePalette, SchemeFamily, FamilyOf, FindScheme, FindName, NameOf, ModeName,
      ControlsName, CornersName, WallpaperName;
    var k := Lookup(key);
    if k < 0 {
      return Err(EINVAL);
    }
    if FIRST_FIELD <= k < FIRST_COLOR && !IsBool(k - FIRST_FIELD) {
      var i := k - FIRST_FIELD;
      var v := ParseNumber(value, FieldMax(i));
      if v.None? || v.value < FieldMin(i) {
        return Err(EINVAL);
      }
      return Ok(t.(fields := t.fields[i := v.value]));
    }
    if k >= FIRST_COLOR {
      var i := k - FIRST_COLOR;
      var v := ParseColor(value);
      if v.None? {
        return Err(EINVAL);
      }
      var scheme := if t.palette[i] != v.value then CUSTOM else t.scheme;
      return Ok(t.(scheme := scheme, palette := t.palette[i := v.value]));
    }
    return ApplyAt(t, k, value);
  }

  /** Copies the pair a text starts with into a bounded buffer; fails when it does not fit. */
  method TakePair(text: string) returns (ok: bool, pair: string, rest: string)
    ensures ok <==> SegLen(text) <= PAIR_MAX
    ensures ok ==> pair == text[..SegLen(text)] && rest == text[SegLen(text)..]
  {
    hide SegLen;
    var n := 0;
    assert text[0..] == text;
    while n < |text| && !Sep(text[n])
      invariant 0 <= n <= |text| && n + SegLen(text[n..]) == SegLen(text) && n <= PAIR_MAX
    {
      SegStep(text[n..]);
      if n + 1 > PAIR_MAX {
        return false, text[..n], text[n..];
      }
      assert text[n..][1..] == text[n + 1..];
      n := n + 1;
    }
    SegStep(text[n..]);
    return true, text[..n], text[n..];
  }

  lemma SegStep(s: string)
    ensures SegLen(s) == if |s| == 0 || Sep(s[0]) then 0 else 1 + SegLen(s[1..])
  {
  }

  method FindEquals(pair: string) returns (e: nat)
    ensures e == Equals(pair)
  {
    e := 0;
    assert pair[0..] == pair;
    while e < |pair| && pair[e] != '='
      invariant 0 <= e <= |pair| && Equals(pair) == e + Equals(pair[e..])
    {
      assert pair[e..][1..] == pair[e + 1..];
      e := e + 1;
    }
  }

  method ApplyOne(t: Theme, pair: string) returns (r: Result)
    requires Shaped(t)
    ensures r == ApplySegment(t, pair)
  {
    hide ApplyPair, Equals;
    var e := FindEquals(pair);
    if e == 0 || e + 1 >= |pair| {
      return Err(EINVAL);
    }
    r := Apply(t, pair[..e], pair[e + 1..]);
  }

  class Store {
    var theme: Theme

    constructor (m: Mode)
      ensures theme == Defaults(m) && Storable(theme)
    {
      theme := Defaults(m);
      DefaultsStorable(m);
    }

    /**
     * `anx_theme_apply_config_checked`: pairs are applied to a copy; the theme changes only when
     * every one was accepted.
     */
    method ApplyConfig(text: string) returns (r: Result)
      requires Shaped(theme)
      modifies this
      ensures r == ApplyFrom(old(theme), text, false)
      ensures theme == if r.Ok? then r.theme else old(theme)
      ensures Shaped(theme) && (old(Storable(theme)) ==> Storable(theme))
    {
      hide ApplySegment, Shaped, Storable, SegLen, ApplyFrom;
      if Storable(theme) {
        TextKeepsStorable(theme, text, false);
      }
      var next, any, rest := theme, false, text;
      while |rest| > 0
        invariant theme == old(theme)
        invariant Shaped(next) && ApplyFrom(old(theme), text, false) == ApplyFrom(next, rest, any)
        decreases |rest|
      {
        Unfold(next, rest, any);
        if Sep(rest[0]) {
          rest := rest[1..];
        } else {
          var ok, pair, behind := TakePair(rest);
          if !ok {
            return Err(EINVAL);
          }
          SegmentShaped(next, pair);
          r := ApplyOne(next, pair);
          if r.Err? {
            return;
          }
          next, any, rest := r.theme, true, behind;
        }
      }
      Unfold(next, rest, any);
      if !any {
        return Err(EINVAL);
      }
      theme := next;
      return Ok(next);
    }

    /** `anx_theme_serialize`: the text comes out whole exactly when it is shorter than the buffer. */
    method Serialize(cap: nat) returns (ok: bool, buf: string)
      requires Shaped(theme)
      ensures ok <==> |Text(theme, 0)| < cap
      ensures ok ==> buf == Text(theme, 0)
    {
      hide NameOf, ValueText, Shaped, Line;
      buf := "";
      if cap == 0 {
        return false, buf;
      }
      var k := 0;
      while k < KEYS
        invariant 0 <= k <= KEYS && buf + Text(theme, k) == Text(theme, 0) && |buf| < cap
      {
        var line := Line(NameOf(k), ValueText(theme, k));
        if |line| >= cap - |buf| {
          return false, buf;
        }
        assert buf + (line + Text(theme, k + 1)) == (buf + line) + Text(theme, k + 1);
        buf := buf + line;
        k := k + 1;
      }
      return true, buf;
    }
  }

  lemma Unfold(t: Theme, s: string, any: bool)
    requires Shaped(t)
    ensures |s| == 0 ==> ApplyFrom(t, s, any) == if any then Ok(t) else Err(EINVAL)
    ensures |s| > 0 && Sep(s[0]) ==> ApplyFrom(t, s, any) == ApplyFrom(t, s[1..], any)
    ensures |s| > 0 && !Sep(s[0]) ==>
              0 < SegLen(s) <= |s| &&
              (SegLen(s) > PAIR_MAX ==> ApplyFrom(t, s, any) == Err(EINVAL)) &&
              (SegLen(s) <= PAIR_MAX ==>
                 var r := ApplySegment(t, s[..SegLen(s)]);
                 && (r.Err? ==> ApplyFrom(t, s, any) == r)
                 && (r.Ok? ==> Shaped(r.theme) && ApplyFrom(t, s, any) == ApplyFrom(r.theme, s[SegLen(s)..], true)))
  {
    hide ApplySegment, Shaped;
    if |s| > 0 {
      SegmentShaped(t, s[..SegLen(s)]);
    }
  }
}
