/**
 * The words of a theme text, kernel/core/theme.c and kernel/lib/font.c: key names, number and
 * colour forms, and the scheme and field tables.
 */
module ThemeText {
  import opened Results
  import opened Json

  const KEYS: nat := 43
  const FIELDS: nat := 14
  const COLORS: nat := 23
  const FIRST_FIELD: nat := 6
  const FIRST_COLOR: nat := 20
  const SCHEMES: nat := 9

  // ----- keys -----

  /** The keys in the order they are written: six words, the field table, the colour table. */
  function NameOf(k: nat): string {
    if k == 0 then "mode" else if k == 1 then "scheme" else if k == 2 then "font_family"
    else if k == 3 then "controls" else if k == 4 then "corners" else if k == 5 then "wallpaper"
    else if k == 6 then "corner_radius" else if k == 7 then "shadow" else if k == 8 then "shadow_offset_x"
    else if k == 9 then "shadow_offset_y" else if k == 10 then "shadow_blur" else if k == 11 then "animation"
    else if k == 12 then "animation_ms" else if k == 13 then "transparency" else if k == 14 then "opacity"
    else if k == 15 then "bar_opacity" else if k == 16 then "titlebar_height" else if k == 17 then "show_titlebar"
    else if k == 18 then "font_scale" else if k == 19 then "antialiased" else if k == 20 then "background"
    else if k == 21 then "surface" else if k == 22 then "border" else if k == 23 then "accent"
    else if k == 24 then "text_primary" else if k == 25 then "text_dim" else if k == 26 then "shadow_color"
    else if k == 27 then "success" else if k == 28 then "warning" else if k == 29 then "error"
    else if k == 30 then "title_from" else if k == 31 then "title_to" else if k == 32 then "title_idle"
    else if k == 33 then "bar_from" else if k == 34 then "bar_to" else if k == 35 then "tab_from"
    else if k == 36 then "tab_to" else if k == 37 then "wallpaper_from" else if k == 38 then "wallpaper_to"
    else if k == 39 then "btn_close" else if k == 40 then "btn_min" else if k == 41 then "btn_max"
    else "btn_glyph"
  }

  /** The first key equal to `key` from `k` on, or -1. */
  function FindName(key: string, k: nat): (r: int)
    requires k <= KEYS
    ensures r == -1 || (k <= r < KEYS && NameOf(r) == key)
    decreases KEYS - k
  {
    if k == KEYS then -1 else if NameOf(k) == key then k else FindName(key, k + 1)
  }

  // Length, third and last letter tell the keys apart.
  function Mark(s: string): int {
    if |s| < 3 then 0 else (|s| * 256 + s[2] as int) * 256 + s[|s| - 1] as int
  }

  function MarkOf(k: nat): int {
    if k == 0 then 0x46465 else if k == 1 then 0x66865 else if k == 2 then 0xb6e79 else if k == 3 then 0x86e73
    else if k == 4 then 0x77273 else if k == 5 then 0x96c72 else if k == 6 then 0xd7273 else if k == 7 then 0x66177
    else if k == 8 then 0xf6178 else if k == 9 then 0xf6179 else if k == 10 then 0xb6172 else if k == 11 then 0x9696e
    else if k == 12 then 0xc6973 else if k == 13 then 0xc6179 else if k == 14 then 0x76179 else if k == 15 then 0xb7279
    else if k == 16 then 0xf7474 else if k == 17 then 0xd6f72 else if k == 18 then 0xa6e65 else if k == 19 then 0xb7464
    else if k == 20 then 0xa6364 else if k == 21 then 0x77265 else if k == 22 then 0x67272 else if k == 23 then 0x66374
    else if k == 24 then 0xc7879 else if k == 25 then 0x8786d else if k == 26 then 0xc6172 else if k == 27 then 0x76373
    else if k == 28 then 0x77267 else if k == 29 then 0x57272 else if k == 30 then 0xa746d else if k == 31 then 0x8746f
    else if k == 32 then 0xa7465 else if k == 33 then 0x8726d else if k == 34 then 0x6726f else if k == 35 then 0x8626d
    else if k == 36 then 0x6626f else if k == 37 then 0xe6c6d else if k == 38 then 0xc6c6f else if k == 39 then 0x96e65
    else if k == 40 then 0x76e6e else if k == 41 then 0x76e78
    else 0x96e68
  }

  function Unmark(f: int): int {
    if f == 0x46465 then 0 else if f == 0x66865 then 1 else if f == 0xb6e79 then 2 else if f == 0x86e73 then 3
    else if f == 0x77273 then 4 else if f == 0x96c72 then 5 else if f == 0xd7273 then 6 else if f == 0x66177 then 7
    else if f == 0xf6178 then 8 else if f == 0xf6179 then 9 else if f == 0xb6172 then 10 else if f == 0x9696e then 11
    else if f == 0xc6973 then 12 else if f == 0xc6179 then 13 else if f == 0x76179 then 14 else if f == 0xb7279 then 15
    else if f == 0xf7474 then 16 else if f == 0xd6f72 then 17 else if f == 0xa6e65 then 18 else if f == 0xb7464 then 19
    else if f == 0xa6364 then 20 else if f == 0x77265 then 21 else if f == 0x67272 then 22 else if f == 0x66374 then 23
    else if f == 0xc7879 then 24 else if f == 0x8786d then 25 else if f == 0xc6172 then 26 else if f == 0x76373 then 27
    else if f == 0x77267 then 28 else if f == 0x57272 then 29 else if f == 0xa746d then 30 else if f == 0x8746f then 31
    else if f == 0xa7465 then 32 else if f == 0x8726d then 33 else if f == 0x6726f then 34 else if f == 0x8626d then 35
    else if f == 0x6626f then 36 else if f == 0xe6c6d then 37 else if f == 0xc6c6f then 38 else if f == 0x96e65 then 39
    else if f == 0x76e6e then 40 else if f == 0x76e78 then 41 else if f == 0x96e68 then 42
    else 43
  }

  lemma MarksApart(k: nat)
    requires k < KEYS
    ensures Unmark(MarkOf(k)) == k
  {
  }

  lemma Marks0(k: nat)
    requires 0 <= k < 11
    ensures 4 <= |NameOf(k)| <= 15 && Mark(NameOf(k)) == MarkOf(k)
  {
  }

  lemma Marks11(k: nat)
    requires 11 <= k < 22
    ensures 4 <= |NameOf(k)| <= 15 && Mark(NameOf(k)) == MarkOf(k)
  {
  }

  lemma Marks22(k: nat)
    requires 22 <= k < 33
    ensures 4 <= |NameOf(k)| <= 15 && Mark(NameOf(k)) == MarkOf(k)
  {
  }

  lemma Marks33(k: nat)
    requires 33 <= k < 43
    ensures 4 <= |NameOf(k)| <= 15 && Mark(NameOf(k)) == MarkOf(k)
  {
  }

  lemma NameMark(k: nat)
    requires k < KEYS
    ensures 4 <= |NameOf(k)| <= 15 && Mark(NameOf(k)) == MarkOf(k)
  {
    hide NameOf, Mark, MarkOf;
    if k < 11 {
      Marks0(k);
    } else if k < 22 {
      Marks11(k);
    } else if k < 33 {
      Marks22(k);
    } else {
      Marks33(k);
    }
  }

  /** No two keys are equal, so each key is found at its own place. */
  lemma {:induction false} FindsItself(j: nat, k: nat)
    requires j <= k < KEYS
    ensures FindName(NameOf(k), j) == k
    decreases k - j
  {
    hide NameOf, Mark, MarkOf, Unmark;
    if j < k {
      NameMark(j);
      NameMark(k);
      MarksApart(j);
      MarksApart(k);
      FindsItself(j + 1, k);
    }
  }

  // ----- the field table -----

  predicate IsBool(i: nat) { i == 1 || i == 5 || i == 7 || i == 11 || i == 13 }

  function FieldMin(i: nat): nat { if i == 10 then 16 else if i == 12 then 1 else 0 }

  function FieldMax(i: nat): nat {
    if IsBool(i) then 1
    else if i == 6 then 10000
    else if i == 8 || i == 9 then 255
    else if i == 12 then 4
    else 64
  }

  // ----- numbers -----

  predicate AllDigits(s: string) { forall k | 0 <= k < |s| :: Digit(s[k]) }

  /** What a number text means: its decimal value, if it is one and is at most `max`. */
  function NumberOf(text: string, max: nat): Option<nat> {
    if |text| > 0 && AllDigits(text) && Decimal(text, 0, |text|) <= max
    then DecimalGrows(text, 0, 0, |text|); Some(Decimal(text, 0, |text|))
    else None
  }

  /** `theme_parse_number`: the guard before each multiplication accepts exactly the numbers up to `max`. */
  method ParseNumber(text: string, max: nat) returns (r: Option<nat>)
    ensures r == NumberOf(text, max)
  {
    if |text| == 0 {
      return None;
    }
    var v, i := 0, 0;
    while i < |text|
      invariant 0 <= i <= |text| && (forall k | 0 <= k < i :: Digit(text[k]))
      invariant v == Decimal(text, 0, i) && 0 <= v <= max
    {
      if !Digit(text[i]) {
        return None;
      }
      var digit := text[i] as int - '0' as int;
      assert Decimal(text, 0, i + 1) == v * 10 + digit;
      if digit > max || v > (max - digit) / 10 {
        if AllDigits(text) {
          DecimalGrows(text, 0, i + 1, |text|);
        }
        return None;
      }
      v := v * 10 + digit;
      i := i + 1;
    }
    return Some(v);
  }

  lemma NumberPrinted(n: nat, max: nat)
    requires n <= max
    ensures NumberOf(PrintNat(n), max) == Some(n)
    ensures forall k | 0 <= k < |PrintNat(n)| :: Digit(PrintNat(n)[k])
  {
    NatOfPrinted(PrintNat(n), 0, n);
  }

  lemma ShortPrinted(n: nat)
    requires n <= 10000
    ensures 0 < |PrintNat(n)| <= 5
  {
    hide DigitChar;
    assert n / 10 <= 1000 && n / 10 / 10 <= 100 && n / 10 / 10 / 10 <= 10;
    assert |PrintNat(n / 10 / 10)| <= 3;
  }

  // ----- colours -----

  predicate IsHex(c: char) { '0' <= c <= '9' || 'a' <= c <= 'f' || 'A' <= c <= 'F' }

  function HexDigit(c: char): (d: nat)
    requires IsHex(c)
    ensures d < 16
  {
    if '0' <= c <= '9' then c as int - '0' as int
    else if 'a' <= c <= 'f' then c as int - 'a' as int + 10
    else c as int - 'A' as int + 10
  }

  predicate AllHex(s: string) { forall k | 0 <= k < |s| :: IsHex(s[k]) }

  function HexValue(s: string): nat
    requires AllHex(s)
  {
    if |s| == 0 then 0 else HexValue(s[..|s| - 1]) * 16 + HexDigit(s[|s| - 1])
  }

  /** The digits behind an optional `#` or `0x`. */
  function Body(text: string): string {
    if |text| > 0 && text[0] == '#' then text[1..]
    else if |text| > 1 && text[0] == '0' && (text[1] == 'x' || text[1] == 'X') then text[2..]
    else text
  }

  /** What a colour text means: exactly six hexadecimal digits. */
  function ColorOf(text: string): Option<nat> {
    var b := Body(text);
    if |b| == 6 && AllHex(b) then Some(HexValue(b)) else None
  }

  /** `anx_theme_parse_color_checked`. */
  method ParseColor(text: string) returns (r: Option<nat>)
    ensures r == ColorOf(text)
  {
    var b := Body(text);
    var value, digits := 0, 0;
    while digits < |b|
      invariant 0 <= digits <= |b| && digits <= 6 && AllHex(b[..digits]) && value == HexValue(b[..digits])
    {
      var c := b[digits];
      if !IsHex(c) || digits + 1 > 6 {
        return None;
      }
      assert b[..digits + 1][..digits] == b[..digits];
      value := value * 16 + HexDigit(c);
      digits := digits + 1;
    }
    assert b[..digits] == b;
    if digits != 6 {
      return None;
    }
    return Some(value);
  }

  function HexChar(d: nat): char
    requires d < 16
  {
    if d < 10 then ('0' as int + d) as char else ('a' as int + d - 10) as char
  }

  function PrintHex(v: nat, n: nat): (s: string)
    ensures |s| == n
  {
    if n == 0 then "" else PrintHex(v / 16, n - 1) + [HexChar(v % 16)]
  }

  function HexWidth(v: nat): (n: nat)
    ensures n >= 1
  {
    if v < 16 then 1 else 1 + HexWidth(v / 16)
  }

  /** `%06x`: six digits, more only when the value needs them. */
  function PrintColor(v: nat): string { PrintHex(v, if HexWidth(v) > 6 then HexWidth(v) else 6) }

  function Pow16(n: nat): (p: nat)
    ensures p > 0
  {
    if n == 0 then 1 else 16 * Pow16(n - 1)
  }

  /** Lower-case digits only: in particular none is `#` or `x`. */
  predicate Lower(s: string) { forall k | 0 <= k < |s| :: '0' <= s[k] <= '9' || 'a' <= s[k] <= 'f' }

  lemma {:induction false} HexPrinted(v: nat, n: nat)
    requires v < Pow16(n)
    ensures Lower(PrintHex(v, n)) && AllHex(PrintHex(v, n)) && HexValue(PrintHex(v, n)) == v
    decreases n
  {
    if n > 0 {
      HexPrinted(v / 16, n - 1);
      var s := PrintHex(v, n);
      assert s[..n - 1] == PrintHex(v / 16, n - 1);
      assert HexDigit(s[n - 1]) == v % 16;
    }
  }

  lemma Narrow(v: nat)
    requires v < 0x100_0000
    ensures HexWidth(v) <= 6 && Pow16(6) == 0x100_0000
  {
    assert v / 16 < 0x10_0000 && v / 16 / 16 < 0x1_0000;
    assert v / 16 / 16 / 16 < 0x1000 && v / 16 / 16 / 16 / 16 < 0x100 && v / 16 / 16 / 16 / 16 / 16 < 0x10;
    assert HexWidth(v / 16 / 16 / 16 / 16) <= 2;
    assert HexWidth(v / 16 / 16) <= 4;
    assert Pow16(3) == 4096;
    assert Pow16(6) == 4096 * Pow16(3);
  }

  lemma ColorPrinted(v: nat)
    requires v < 0x100_0000
    ensures ColorOf(PrintColor(v)) == Some(v) && |PrintColor(v)| == 6 && Lower(PrintColor(v))
  {
    Narrow(v);
    HexPrinted(v, 6);
    var s := PrintHex(v, 6);
    assert Body(s) == s;
  }

  lemma {:induction false} HexValueBound(s: string)
    requires AllHex(s)
    ensures HexValue(s) < Pow16(|s|)
  {
    if |s| > 0 {
      HexValueBound(s[..|s| - 1]);
    }
  }

  /** Whatever colour text is accepted, the colour has 24 bits. */
  lemma ColorBound(text: string)
    ensures ColorOf(text).Some? ==> ColorOf(text).value < 0x100_0000
  {
    if ColorOf(text).Some? {
      HexValueBound(Body(text));
      Narrow(0);
    }
  }

  // ----- fonts and schemes -----

  datatype Family = Atkinson | Cascadia | JetBrains | Spleen

  function FamilyName(f: Family): string {
    match f
    case Atkinson => "atkinson-hyperlegible-mono"
    case Cascadia => "cascadia-mono"
    case JetBrains => "jetbrains-mono-nerd"
    case Spleen => "spleen"
  }

  /** `anx_font_family_parse`: the first family of that name. */
  function FamilyOf(name: string): Option<Family> {
    if name == FamilyName(Atkinson) then Some(Atkinson)
    else if name == FamilyName(Cascadia) then Some(Cascadia)
    else if name == FamilyName(JetBrains) then Some(JetBrains)
    else if name == FamilyName(Spleen) then Some(Spleen)
    else None
  }

  lemma FamilyRoundTrip(f: Family)
    ensures FamilyOf(FamilyName(f)) == Some(f) && 0 < |FamilyName(f)| <= 26
  {
    assert |FamilyName(Atkinson)| == 26 && |FamilyName(Cascadia)| == 13;
    assert |FamilyName(JetBrains)| == 19 && |FamilyName(Spleen)| == 6;
  }

  function SchemeName(i: nat): string {
    if i == 0 then "default" else if i == 1 then "paper" else if i == 2 then "blackout" else if i == 3 then "obsidian"
    else if i == 4 then "nord" else if i == 5 then "sunset" else if i == 6 then "macos" else if i == 7 then "windows"
    else "omarchy"
  }

  function SchemeFamily(i: nat): Family {
    if i < 6 then Atkinson else if i < 8 then Cascadia else JetBrains
  }

  function DefaultPalette(): seq<nat> {
    [0x0B1A2B, 0x163454, 0x3A94A6, 0x4FB0BF, 0xF7F5F1, 0x7FC9D3, 0x050D18, 0x2D8A3E,
     0xD69420, 0xCC3A2A, 0x1D4470, 0x163454, 0x122B45, 0x163454, 0x0E2338, 0x1D4470,
     0x163454, 0x0E2338, 0x2F7A8C, 0xEAF4F7, 0xA9D6DE, 0x6FB3C2, 0xA85248]
  }

  function PaperPalette(): seq<nat> {
    [0xE4E0D8, 0xFDFCF9, 0xCFCAC0, 0x3A94A6, 0x1A2733, 0x6A7683, 0x8A95A2, 0x2D8A3E,
     0xC47B10, 0xCC3A2A, 0xF7F5F1, 0xE4E0D8, 0xEFECE6, 0xEFECE6, 0xDAD5CC, 0xFDFCF9,
     0xE4E0D8, 0xCFCAC0, 0xF7F5F1, 0xFFFFFF, 0xD7D1C6, 0xAFA89B, 0xA85248]
  }

  function BlackoutPalette(): seq<nat> {
    [0x090909, 0x161616, 0x4A4A4A, 0xC0C0C0, 0xF0F0F0, 0x9A9A9A, 0x000000, 0xB8B8B8,
     0xD0D0D0, 0xA85248, 0x2C2C2C, 0x161616, 0x121212, 0x1E1E1E, 0x0C0C0C, 0x2C2C2C,
     0x161616, 0x0C0C0C, 0x2A2A2A, 0xDADADA, 0x8C8C8C, 0x4E4E4E, 0xA85248]
  }

  function ObsidianPalette(): seq<nat> {
    [0x101014, 0x1A1A20, 0x3A3A46, 0xE0A030, 0xEDEDF0, 0x9A9AA6, 0x000000, 0x4CAF50,
     0xE0A030, 0xE05252, 0x26262E, 0x1A1A20, 0x18181E, 0x1A1A20, 0x101014, 0x26262E,
     0x1A1A20, 0x101014, 0x2A2A34, 0xF2E0C0, 0xC09A5A, 0x7A6236, 0xA85248]
  }

  function NordPalette(): seq<nat> {
    [0x2E3440, 0x3B4252, 0x616E88, 0x88C0D0, 0xECEFF4, 0xA3BE8C, 0x121418, 0xA3BE8C,
     0xEBCB8B, 0xBF616A, 0x434C5E, 0x3B4252, 0x353B49, 0x3B4252, 0x2E3440, 0x434C5E,
     0x3B4252, 0x2E3440, 0x5E81AC, 0xE5E9F0, 0xA6BBD0, 0x5E7392, 0xA85248]
  }

  function SunsetPalette(): seq<nat> {
    [0x1B1024, 0x2A1836, 0xE0683C, 0xF2994A, 0xFBF1E6, 0xC9A0B8, 0x120A18, 0x57A773,
     0xF2C94C, 0xEB5757, 0x3D2148, 0x2A1836, 0x241430, 0x2A1836, 0x1B1024, 0x3D2148,
     0x2A1836, 0x1B1024, 0xA24E5E, 0xF8E3EC, 0xC98CA6, 0x8A5570, 0xA85248]
  }

  function MacosPalette(): seq<nat> {
    [0xFFFFFF, 0xECECEC, 0xC8C8C8, 0x0A84FF, 0x1D1D1F, 0x6E6E73, 0x505050, 0x28C840,
     0xFEBC2E, 0xFF5F57, 0xF6F6F6, 0xE4E4E4, 0xF0F0F0, 0xF6F6F6, 0xE8E8E8, 0xFFFFFF,
     0xE8E8E8, 0x2B4A73, 0x6E92B8, 0xFF5F57, 0xFEBC2E, 0x28C840, 0x4D0000]
  }

  function WindowsPalette(): seq<nat> {
    [0xF3F3F3, 0xFFFFFF, 0x909090, 0x0078D4, 0x191919, 0x606060, 0x202020, 0x10893E,
     0xF7630C, 0xC42B1C, 0xF3F3F3, 0xF3F3F3, 0xEBEBEB, 0xE8E8E8, 0xE8E8E8, 0xFFFFFF,
     0xFFFFFF, 0x004F9B, 0x25A8F2, 0xF3F3F3, 0xF3F3F3, 0xF3F3F3, 0x191919]
  }

  function OmarchyPalette(): seq<nat> {
    [0x11111B, 0x1E1E2E, 0x585B70, 0xCBA6F7, 0xCDD6F4, 0xA6ADC8, 0x080810, 0xA6E3A1,
     0xF9E2AF, 0xF38BA8, 0x313244, 0x1E1E2E, 0x181825, 0x1E1E2E, 0x11111B, 0x313244,
     0x1E1E2E, 0x11111B, 0x584A7A, 0xEFE3FB, 0xC0A6E0, 0x7E6BA0, 0xA85248]
  }

  function BoringPalette(): seq<nat> {
    [0x000000, 0x000000, 0xAAAAAA, 0xFFFFFF, 0xFFFFFF, 0x888888, 0x000000, 0xFFFFFF,
     0xFFFFFF, 0xFFFFFF, 0x000000, 0x000000, 0x000000, 0x000000, 0x000000, 0x000000,
     0x000000, 0x000000, 0x000000, 0xFFFFFF, 0xAAAAAA, 0x666666, 0x000000]
  }

  function SchemePalette(i: nat): seq<nat> {
    if i == 0 then DefaultPalette()
    else if i == 1 then PaperPalette()
    else if i == 2 then BlackoutPalette()
    else if i == 3 then ObsidianPalette()
    else if i == 4 then NordPalette()
    else if i == 5 then SunsetPalette()
    else if i == 6 then MacosPalette()
    else if i == 7 then WindowsPalette()
    else OmarchyPalette()
  }

  /** Every palette has all the colours, each of 24 bits. */
  predicate IsPalette(p: seq<nat>) { |p| == COLORS && forall k | 0 <= k < COLORS :: p[k] < 0x100_0000 }

  lemma SchemePaletteOk(i: nat)
    ensures IsPalette(SchemePalette(i)) && IsPalette(BoringPalette())
  {
    hide IsPalette, DefaultPalette, PaperPalette, BlackoutPalette, ObsidianPalette, NordPalette, SunsetPalette,
      MacosPalette, WindowsPalette, OmarchyPalette, BoringPalette;
    DefaultOk();
    PaperOk();
    BlackoutOk();
    ObsidianOk();
    NordOk();
    SunsetOk();
    MacosOk();
    WindowsOk();
    OmarchyOk();
    BoringOk();
  }

  lemma DefaultOk()
    ensures IsPalette(DefaultPalette())
  {
  }

  lemma PaperOk()
    ensures IsPalette(PaperPalette())
  {
  }

  lemma BlackoutOk()
    ensures IsPalette(BlackoutPalette())
  {
  }

  lemma ObsidianOk()
    ensures IsPalette(ObsidianPalette())
  {
  }

  lemma NordOk()
    ensures IsPalette(NordPalette())
  {
  }

  lemma SunsetOk()
    ensures IsPalette(SunsetPalette())
  {
  }

  lemma MacosOk()
    ensures IsPalette(MacosPalette())
  {
  }

  lemma WindowsOk()
    ensures IsPalette(WindowsPalette())
  {
  }

  lemma OmarchyOk()
    ensures IsPalette(OmarchyPalette())
  {
  }

  lemma BoringOk()
    ensures IsPalette(BoringPalette())
  {
  }

  function FindScheme(name: string, i: nat): (r: int)
    requires i <= SCHEMES
    ensures r == -1 || (i <= r < SCHEMES && SchemeName(r) == name)
    decreases SCHEMES - i
  {
    if i == SCHEMES then -1 else if SchemeName(i) == name then i else FindScheme(name, i + 1)
  }

  /** No scheme is called "custom" or by the old name "aether"; all names are short words. */
  lemma SchemeWord(i: nat)
    ensures SchemeName(i) != "custom" && SchemeName(i) != "aether" && 4 <= |SchemeName(i)| <= 8
  {
    assert "sunset"[0] != "custom"[0] && "sunset"[0] != "aether"[0];
  }
}
