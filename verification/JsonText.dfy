/**
 * The language of kernel/lib/json.c, stated without its parser: texts as trees of tokens with
 * the white space between them.  The parser accepts exactly the texts of this language, up to
 * its limits on arrays and objects, and gives each its meaning.  It is more lenient than RFC 8259:
 * leading zeros, empty fractions and exponents, raw control characters and any escaped character pass.
 */
module JsonText {
  import opened Results
  import opened Json

  // ----- texts and what they mean -----

  predicate Blank(t: string) { forall k | 0 <= k < |t| :: t[k] in {' ', '\t', '\n', '\r'} }

  predicate Numeral(t: string) { forall k | 0 <= k < |t| :: '0' <= t[k] <= '9' }

  function Pow10(n: nat): nat { if n == 0 then 1 else 10 * Pow10(n - 1) }

  /** The value of a numeral by the weights of its digits. */
  function NumeralValue(t: string): int {
    if t == "" then 0 else (t[0] as int - 48) * Pow10(|t| - 1) + NumeralValue(t[1..])
  }

  /** A fraction or an exponent; both may lack digits, and neither counts. */
  predicate IsFraction(t: string) { t == "" || (t[0] == '.' && Numeral(t[1..])) }

  predicate IsExponent(t: string) {
    t == "" || (t[0] in {'e', 'E'} && (Numeral(t[1..]) || (|t| > 1 && t[1] in {'+', '-'} && Numeral(t[2..]))))
  }

  /** A character as it stands, or one behind a backslash. */
  datatype Glyph = Raw(c: char) | Escaped(c: char)

  /** The escapes that stand for another character, by code. */
  const ESCAPES: map<char, char> :=
    map['b' := 8 as char, 'f' := 12 as char, 'n' := 10 as char, 'r' := 13 as char, 't' := 9 as char]

  function GlyphText(g: seq<Glyph>): string {
    if g == [] then "" else (if g[0].Raw? then [g[0].c] else ['\\', g[0].c]) + GlyphText(g[1..])
  }

  function GlyphValue(g: seq<Glyph>): string {
    if g == [] then ""
    else [if g[0].Escaped? && g[0].c in ESCAPES then ESCAPES[g[0].c] else g[0].c] + GlyphValue(g[1..])
  }

  predicate Plain(g: seq<Glyph>) { forall k | 0 <= k < |g| && g[k].Raw? :: g[k].c != '"' && g[k].c != '\\' }

  datatype Tree =
    | Word(lead: string, value: Value)
    | Numbers(lead: string, negative: bool, digits: string, fraction: string, exponent: string)
    | Str(lead: string, glyphs: seq<Glyph>)
    | Arr(lead: string, gap: string, items: seq<Item>)
    | Obj(lead: string, gap: string, members: seq<Member>)

  /** An item, and the white space behind it. */
  datatype Item = Item(tree: Tree, gap: string)

  datatype Member = Member(lead: string, key: seq<Glyph>, colon: string, tree: Tree, gap: string)

  function Quote(g: seq<Glyph>): string { "\"" + GlyphText(g) + "\"" }

  function WordOf(v: Value): string {
    if v == Null then "null" else if v == Bool(true) then "true" else "false"
  }

  function Text(t: Tree): string
    decreases t, 2
  {
    t.lead + Core(t)
  }

  function Core(t: Tree): string
    decreases t, 1
  {
    match t
    case Word(_, v) => WordOf(v)
    case Numbers(_, negative, digits, fraction, exponent) =>
      (if negative then "-" else "") + digits + fraction + exponent
    case Str(_, glyphs) => Quote(glyphs)
    case Arr(_, gap, items) => "[" + if items == [] then gap + "]" else ItemsText(items)
    case Obj(_, gap, members) => "{" + if members == [] then gap + "}" else MembersText(members)
  }

  function ItemsText(items: seq<Item>): string
    requires items != []
    decreases items, 0
  {
    Text(items[0].tree) + (items[0].gap + if |items| == 1 then "]" else "," + ItemsText(items[1..]))
  }

  function MemberText(m: Member): string
    decreases m, 3
  {
    m.lead + Quote(m.key) + (m.colon + ":") + Text(m.tree)
  }

  function MembersText(members: seq<Member>): string
    requires members != []
    decreases members, 0
  {
    MemberText(members[0]) + (members[0].gap + if |members| == 1 then "}" else "," + MembersText(members[1..]))
  }

  function Meaning(t: Tree): Value
    decreases t, 1
  {
    match t
    case Word(_, v) => v
    case Numbers(_, negative, digits, _, _) => Number(if negative then -NumeralValue(digits) else NumeralValue(digits))
    case Str(_, glyphs) => String(GlyphValue(glyphs))
    case Arr(_, _, items) => Array(ItemsValue(items))
    case Obj(_, _, members) => Object(MembersValue(members))
  }

  function ItemsValue(items: seq<Item>): seq<Value>
    decreases items, 0
  {
    if items == [] then [] else [Meaning(items[0].tree)] + ItemsValue(items[1..])
  }

  function MembersValue(members: seq<Member>): seq<Pair>
    decreases members, 0
  {
    if members == [] then []
    else [Pair(GlyphValue(members[0].key), Meaning(members[0].tree))] + MembersValue(members[1..])
  }

  predicate Well(t: Tree)
    decreases t, 1
  {
    Blank(t.lead) &&
    match t
    case Word(_, v) => v.Null? || v.Bool?
    case Numbers(_, _, digits, fraction, exponent) =>
      digits != "" && Numeral(digits) && IsFraction(fraction) && IsExponent(exponent)
    case Str(_, glyphs) => Plain(glyphs)
    case Arr(_, gap, items) => Blank(gap) && |items| <= 256 && WellItems(items)
    case Obj(_, gap, members) => Blank(gap) && |members| <= 128 && WellMembers(members)
  }

  predicate WellItems(items: seq<Item>)
    decreases items, 0
  {
    items != [] ==> Blank(items[0].gap) && Well(items[0].tree) && WellItems(items[1..])
  }

  predicate WellMember(m: Member)
    decreases m, 2
  {
    Blank(m.lead) && Plain(m.key) && Blank(m.colon) && Well(m.tree)
  }

  predicate WellMembers(members: seq<Member>)
    decreases members, 0
  {
    members != [] ==> Blank(members[0].gap) && WellMember(members[0]) && WellMembers(members[1..])
  }

  // ----- tokens -----

  lemma Slices(s: string, a: nat, b: nat, c: nat)
    requires a <= b <= c <= |s|
    ensures s[a..b] + s[b..c] == s[a..c]
  {
  }

  lemma {:induction false} SkipsBlank(s: string, p: nat)
    requires p <= |s|
    ensures Blank(s[p..Skip(s, p)])
    decreases |s| - p
  {
    if p < |s| && Space(s[p]) {
      SkipsBlank(s, p + 1);
      Slices(s, p, p + 1, Skip(s, p));
    }
  }

  lemma {:induction false} SkipOver(s: string, p: nat, t: string)
    requires At(s, p, t) && Blank(t) && (p + |t| < |s| ==> !Blank([s[p + |t|]]))
    ensures p <= |s| && Skip(s, p) == p + |t|
    decreases |t|
  {
    if t == "" {
      assert p < |s| ==> [s[p]][0] == s[p];
    } else {
      AtChar(s, p, t);
      SkipOver(s, p + 1, t[1..]);
    }
  }

  lemma {:induction false} DecimalIsValue(s: string, p: nat, q: nat)
    requires p <= q <= |s|
    ensures Decimal(s, p, q) == NumeralValue(s[p..q])
    decreases q - p
  {
    if p < q {
      DecimalIsValue(s, p, q - 1);
      LastDigit(s[p..q]);
      assert s[p..q][..q - p - 1] == s[p..q - 1];
    }
  }

  lemma {:induction false} LastDigit(t: string)
    requires t != ""
    ensures NumeralValue(t) == NumeralValue(t[..|t| - 1]) * 10 + (t[|t| - 1] as int - 48)
  {
    var n := |t| - 1;
    if n > 0 {
      LastDigit(t[1..]);
      assert t[1..][..n - 1] == t[..n][1..];
      var d, m := t[0] as int - 48, NumeralValue(t[..n][1..]);
      assert NumeralValue(t[..n]) == d * Pow10(n - 1) + m;
      assert d * Pow10(n) == 10 * (d * Pow10(n - 1));
    }
  }

  lemma {:induction false} CharsSound(s: string, p: nat) returns (g: seq<Glyph>)
    requires p <= |s| && Chars(s, p).Ok?
    ensures Plain(g) && GlyphValue(g) == Chars(s, p).value && GlyphText(g) + "\"" == s[p..Chars(s, p).end]
    decreases |s| - p
  {
    var end := Chars(s, p).end;
    if s[p] == '"' {
      g := [];
    } else {
      var glyph := if s[p] == '\\' then Escaped(s[p + 1]) else Raw(s[p]);
      var n := if s[p] == '\\' then 2 else 1;
      var rest := CharsSound(s, p + n);
      g := [glyph] + rest;
      assert g[1..] == rest;
      assert GlyphText(g) == s[p..p + n] + GlyphText(rest);
      assert GlyphText(g) + "\"" == s[p..p + n] + (GlyphText(rest) + "\"");
      Slices(s, p, p + n, end);
    }
  }

  lemma {:induction false} CharsComplete(s: string, p: nat, g: seq<Glyph>)
    requires Plain(g) && At(s, p, GlyphText(g) + "\"")
    ensures p <= |s| && Chars(s, p) == Ok(GlyphValue(g), p + |GlyphText(g)| + 1)
    decreases |g|
  {
    hide At;
    if g == [] {
      assert GlyphText(g) + "\"" == "\"";
      AtChar(s, p, "\"");
    } else {
      var first := if g[0].Raw? then [g[0].c] else ['\\', g[0].c];
      assert GlyphText(g) + "\"" == first + (GlyphText(g[1..]) + "\"");
      AtSplit(s, p, first, GlyphText(g[1..]) + "\"");
      CharsComplete(s, p + |first|, g[1..]);
      AtChar(s, p, first);
      if |first| == 2 {
        AtChar(s, p + 1, first[1..]);
      }
    }
  }

  lemma StringSound(s: string, p: nat) returns (lead: string, g: seq<Glyph>)
    requires p <= |s| && ParseString(s, p).Ok?
    ensures Blank(lead) && Plain(g) && GlyphValue(g) == ParseString(s, p).value
    ensures lead + Quote(g) == s[p..ParseString(s, p).end] && lead == s[p..Skip(s, p)]
  {
    hide Chars, GlyphText, GlyphValue, Skip, Blank;
    var q, end := Skip(s, p), ParseString(s, p).end;
    SkipsBlank(s, p);
    lead := s[p..q];
    g := CharsSound(s, q + 1);
    Slices(s, q, q + 1, end);
    assert s[q..q + 1] == "\"";
    assert Quote(g) == "\"" + (GlyphText(g) + "\"");
    Slices(s, p, q, end);
  }

  lemma StringComplete(s: string, p: nat, lead: string, g: seq<Glyph>)
    requires Blank(lead) && Plain(g) && At(s, p, lead + Quote(g))
    ensures p <= |s| && ParseString(s, p) == Ok(GlyphValue(g), p + |lead| + |Quote(g)|)
  {
    hide At, Chars, GlyphText, GlyphValue;
    AtSplit(s, p, lead, Quote(g));
    var q := p + |lead|;
    assert Quote(g) == "\"" + (GlyphText(g) + "\"");
    AtSplit(s, q, "\"", GlyphText(g) + "\"");
    AtChar(s, q, "\"");
    assert [s[q]][0] == '"';
    SkipOver(s, p, lead);
    CharsComplete(s, q + 1, g);
  }

  lemma NumeralAt(s: string, p: nat, q: nat)
    requires p <= q <= |s|
    ensures Numeral(s[p..q]) <==> forall k | p <= k < q :: Digit(s[k])
  {
    if Numeral(s[p..q]) {
      forall k | p <= k < q ensures Digit(s[k]) {
        assert s[p..q][k - p] == s[k];
      }
    }
  }

  lemma DigitsSound(s: string, p: nat)
    requires p <= |s|
    ensures Numeral(s[p..Digits(s, p)])
  {
    NumeralAt(s, p, Digits(s, p));
  }

  /** A numeral is read to its end. */
  lemma DigitsComplete(s: string, p: nat, t: string)
    requires At(s, p, t) && Numeral(t) && (p + |t| < |s| ==> !Digit(s[p + |t|]))
    ensures p <= |s| && Digits(s, p) == p + |t| && s[p..p + |t|] == t
  {
    NumeralAt(s, p, p + |t|);
    DigitsEnd(s, p, p + |t|);
  }

  lemma FractionSound(s: string, p: nat)
    requires p <= |s|
    ensures IsFraction(s[p..Fraction(s, p)])
  {
    hide Digits;
    var q := Fraction(s, p);
    if p < q {
      DigitsSound(s, p + 1);
      assert s[p..q][1..] == s[p + 1..q];
    }
  }

  lemma ExponentSound(s: string, p: nat)
    requires p <= |s|
    ensures IsExponent(s[p..Exponent(s, p)])
  {
    hide Digits, Numeral;
    var q := Exponent(s, p);
    if p < q {
      assert s[p..q][1..] == s[p + 1..q];
      if p + 1 < |s| && (s[p + 1] == '+' || s[p + 1] == '-') {
        DigitsSound(s, p + 2);
        assert s[p..q][2..] == s[p + 2..q] && s[p..q][1] == s[p + 1];
      } else {
        DigitsSound(s, p + 1);
      }
    }
  }

  lemma NumberSound(s: string, p: nat) returns (t: Tree)
    requires p <= |s| && ParseNumber(s, p).Ok?
    ensures Well(t) && Meaning(t) == Number(ParseNumber(s, p).value) && Text(t) == s[p..ParseNumber(s, p).end]
  {
    hide Digits, Fraction, Exponent, Decimal, Numeral, IsFraction, IsExponent, Blank, NumeralValue;
    var q := Skip(s, p);
    var negative := q < |s| && s[q] == '-';
    var d := if negative then q + 1 else q;
    var e := Digits(s, d);
    var f := Fraction(s, e);
    var end := Exponent(s, f);
    SkipsBlank(s, p);
    DigitsSound(s, d);
    FractionSound(s, e);
    ExponentSound(s, f);
    DecimalIsValue(s, d, e);
    t := Numbers(s[p..q], negative, s[d..e], s[e..f], s[f..end]);
    assert (if negative then "-" else "") == s[q..d];
    assert Core(t) == s[q..d] + s[d..e] + s[e..f] + s[f..end];
    Slices(s, q, d, e);
    Slices(s, q, e, f);
    Slices(s, q, f, end);
    Slices(s, p, q, end);
  }

  /** What may stand behind a value without changing how it reads. */
  predicate Delimited(s: string, q: nat) {
    q >= |s| || s[q] in {',', ']', '}', ' ', '\t', '\n', '\r'}
  }

  lemma FractionComplete(s: string, p: nat, t: string)
    requires At(s, p, t) && IsFraction(t)
    requires p + |t| < |s| ==> !Digit(s[p + |t|]) && s[p + |t|] != '.'
    ensures p <= |s| && Fraction(s, p) == p + |t|
  {
    hide At;
    if t != "" {
      AtChar(s, p, t);
      DigitsComplete(s, p + 1, t[1..]);
    } else {
      assert p + 0 <= |s| by { AtSplit(s, p, "", ""); }
    }
  }

  lemma ExponentComplete(s: string, p: nat, t: string)
    requires At(s, p, t) && IsExponent(t) && Delimited(s, p + |t|)
    ensures p <= |s| && Exponent(s, p) == p + |t|
  {
    hide At, Digits;
    if t != "" {
      AtChar(s, p, t);
      if |t| > 1 && t[1] in {'+', '-'} {
        AtChar(s, p + 1, t[1..]);
        assert t[1..][1..] == t[2..];
        assert !Numeral(t[1..]) by { assert t[1..][0] == t[1]; }
        DigitsComplete(s, p + 2, t[2..]);
      } else {
        DigitsComplete(s, p + 1, t[1..]);
        if |t| > 1 {
          AtChar(s, p + 1, t[1..]);
        }
      }
    } else {
      assert p + 0 <= |s| by { AtSplit(s, p, "", ""); }
    }
  }

  lemma NumberComplete(s: string, p: nat, t: Tree)
    requires t.Numbers? && Well(t) && At(s, p, Core(t)) && Delimited(s, p + |Core(t)|)
    ensures p < |s| && (Digit(s[p]) || s[p] == '-') && Skip(s, p) == p
    ensures ParseNumber(s, p) == Ok(Meaning(t).n, p + |Core(t)|)
  {
    hide At, Digits, Fraction, Exponent, Decimal, IsFraction, IsExponent, NumeralValue, Delimited, ParseNumber, Numeral;
    var sign := if t.negative then "-" else "";
    var d := p + |sign|;
    var e := d + |t.digits|;
    var f := e + |t.fraction|;
    NumberParts(s, p, sign, t.digits, t.fraction, t.exponent);
    TailStarts(s, e, t.fraction, t.exponent);
    DigitsComplete(s, d, t.digits);
    FractionComplete(s, e, t.fraction);
    ExponentComplete(s, f, t.exponent);
    DecimalIsValue(s, d, e);
    NumberStep(s, p, t.negative, e, f, f + |t.exponent|);
  }

  lemma NumberParts(s: string, p: nat, sign: string, digits: string, fraction: string, exponent: string)
    requires At(s, p, sign + digits + fraction + exponent) && digits != "" && Numeral(digits)
    requires sign == "" || sign == "-"
    ensures var d := p + |sign|;
            && At(s, d, digits) && At(s, d + |digits|, fraction) && At(s, d + |digits| + |fraction|, exponent)
            && p < |s| && Skip(s, p) == p && (s[p] == '-' <==> sign == "-") && d < |s| && Digit(s[d])
  {
    hide At;
    AtSplit(s, p, sign + digits + fraction, exponent);
    AtSplit(s, p, sign + digits, fraction);
    AtSplit(s, p, sign, digits);
    AtChar(s, p + |sign|, digits);
    if sign == "-" {
      AtChar(s, p, sign);
    }
  }

  lemma NumberStep(s: string, p: nat, negative: bool, e: nat, f: nat, end: nat)
    requires p < |s| && Skip(s, p) == p && (s[p] == '-' <==> negative)
    requires var d := if negative then p + 1 else p;
             d < e <= |s| && Digits(s, d) == e && Fraction(s, e) == f && Exponent(s, f) == end
    ensures var d := if negative then p + 1 else p;
            ParseNumber(s, p) == Ok(if negative then -Decimal(s, d, e) else Decimal(s, d, e), end)
  {
    hide Digits, Fraction, Exponent, Decimal;
  }

  /** What follows the digits, and then the fraction, of a number is no further part of them. */
  lemma TailStarts(s: string, e: nat, fraction: string, exponent: string)
    requires At(s, e, fraction) && At(s, e + |fraction|, exponent) && IsFraction(fraction) && IsExponent(exponent)
    requires Delimited(s, e + |fraction| + |exponent|)
    ensures e < |s| ==> !Digit(s[e])
    ensures e + |fraction| < |s| ==> !Digit(s[e + |fraction|]) && s[e + |fraction|] != '.'
  {
    hide At, Numeral;
    if exponent != "" {
      AtChar(s, e + |fraction|, exponent);
    }
    if fraction != "" {
      AtChar(s, e, fraction);
    }
  }

  // ----- the parser accepts only texts of the language -----

  lemma {:induction false} Sound(s: string, p: nat) returns (t: Tree)
    requires p <= |s| && ParseValue(s, p).Ok?
    ensures Well(t) && Meaning(t) == ParseValue(s, p).value && Text(t) == s[p..ParseValue(s, p).end]
    decreases |s| - p, 1
  {
    hide Items, Members, ParseString, ParseNumber, Skip, Blank, GlyphText, GlyphValue, Plain;
    var q, end := Skip(s, p), ParseValue(s, p).end;
    var lead := s[p..q];
    SkipsBlank(s, p);
    if s[q] == '"' {
      var l, g := StringSound(s, p);
      t := Str(l, g);
    } else if s[q] == '[' {
      t := ArraySound(s, p);
    } else if s[q] == '{' {
      t := ObjectSound(s, p);
    } else if s[q] == 't' || s[q] == 'f' || s[q] == 'n' {
      t := Word(lead, ParseValue(s, p).value);
      Slices(s, p, q, end);
    } else {
      t := NumberSound(s, p);
    }
  }

  lemma {:induction false} ArraySound(s: string, p: nat) returns (t: Tree)
    requires p <= |s| && ParseValue(s, p).Ok? && s[Skip(s, p)] == '['
    ensures Well(t) && Meaning(t) == ParseValue(s, p).value && Text(t) == s[p..ParseValue(s, p).end]
    decreases |s| - p, 0
  {
    hide Items, Members, ParseString, ParseNumber, Skip, Blank, Literal,
         ItemsText, MembersText, ItemsValue, MembersValue, WellItems, WellMembers;
    NoItems();
    var q, end := Skip(s, p), ParseValue(s, p).end;
    SkipsBlank(s, p);
    assert s[q..q + 1] == "[";
    Slices(s, q, q + 1, end);
    Slices(s, p, q, end);
    if Next(s, q + 1, ']') {
      SkipsBlank(s, q + 1);
      t := Arr(s[p..q], s[q + 1..end - 1], []);
      assert s[end - 1..end] == "]";
      Slices(s, q + 1, end - 1, end);
    } else {
      var items := ItemsSound(s, q + 1, []);
      t := Arr(s[p..q], "", items);
      assert [] + ItemsValue(items) == ItemsValue(items);
      assert Blank("") by { NothingIsBlank(); }
    }
  }

  lemma NothingIsBlank()
    ensures Blank("")
  {
  }

  lemma {:induction false} ItemsSound(s: string, p: nat, done: seq<Value>) returns (items: seq<Item>)
    requires p <= |s| && Items(s, p, done).Ok?
    ensures items != [] && WellItems(items) && |done| + |items| <= 256
    ensures Items(s, p, done).value == done + ItemsValue(items) && ItemsText(items) == s[p..Items(s, p, done).end]
    decreases |s| - p, 2
  {
    hide ParseValue, Skip, Blank, Text, Meaning, Well, ItemsText, ItemsValue, WellItems;
    var end := Items(s, p, done).end;
    var q := ParseValue(s, p).end;
    var t := Sound(s, p);
    var mark := Skip(s, q);
    SkipsBlank(s, q);
    var item := Item(t, s[q..mark]);
    var rest := [];
    NoItems();
    if Next(s, q, ',') {
      rest := ItemsSound(s, mark + 1, done + [Meaning(t)]);
    }
    items := [item] + rest;
    ItemsAre(s, p, q, mark, end, item, rest);
    assert done + [Meaning(t)] + ItemsValue(rest) == done + ItemsValue(items);
  }

  /** An item, its gap, its mark and the rest make up the text. */
  lemma ItemsAre(s: string, p: nat, q: nat, mark: nat, end: nat, item: Item, rest: seq<Item>)
    requires p <= q <= mark < end <= |s| && Text(item.tree) == s[p..q] && item.gap == s[q..mark]
    requires if rest == [] then s[mark] == ']' && end == mark + 1
             else s[mark] == ',' && ItemsText(rest) == s[mark + 1..end]
    ensures ItemsText([item] + rest) == s[p..end]
    ensures ItemsValue([item] + rest) == [Meaning(item.tree)] + ItemsValue(rest)
    ensures Blank(item.gap) && Well(item.tree) && WellItems(rest) ==> WellItems([item] + rest)
  {
    hide Text, Meaning, Well, Blank;
    var items := [item] + rest;
    assert items[1..] == rest;
    var tail := if rest == [] then "]" else "," + ItemsText(rest);
    assert tail == s[mark..end] by {
      Slices(s, mark, mark + 1, end);
    }
    assert ItemsText(items) == s[p..q] + (s[q..mark] + tail);
    Slices(s, q, mark, end);
    Slices(s, p, q, end);
  }

  lemma {:induction false} ObjectSound(s: string, p: nat) returns (t: Tree)
    requires p <= |s| && ParseValue(s, p).Ok? && s[Skip(s, p)] == '{'
    ensures Well(t) && Meaning(t) == ParseValue(s, p).value && Text(t) == s[p..ParseValue(s, p).end]
    decreases |s| - p, 0
  {
    hide Items, Members, ParseString, ParseNumber, Skip, Blank, Literal,
         ItemsText, MembersText, ItemsValue, MembersValue, WellItems, WellMembers;
    NoItems();
    var q, end := Skip(s, p), ParseValue(s, p).end;
    SkipsBlank(s, p);
    assert s[q..q + 1] == "{";
    Slices(s, q, q + 1, end);
    Slices(s, p, q, end);
    if Next(s, q + 1, '}') {
      SkipsBlank(s, q + 1);
      t := Obj(s[p..q], s[q + 1..end - 1], []);
      assert s[end - 1..end] == "}";
      Slices(s, q + 1, end - 1, end);
    } else {
      var members := MembersSound(s, q + 1, []);
      t := Obj(s[p..q], "", members);
      assert [] + MembersValue(members) == MembersValue(members);
      assert Blank("") by { NothingIsBlank(); }
    }
  }

  lemma {:induction false} MemberSound(s: string, p: nat, gap: string) returns (m: Member)
    requires p <= |s| && ParseMember(s, p).Ok?
    ensures WellMember(m) && m.gap == gap && MemberText(m) == s[p..ParseMember(s, p).end]
    ensures ParseMember(s, p).value == Pair(GlyphValue(m.key), Meaning(m.tree))
    decreases |s| - p, 2
  {
    hide ParseValue, ParseString, Skip, Blank, Text, Meaning, Well, Quote, GlyphValue, Plain;
    var lead, g := StringSound(s, p);
    var k := ParseString(s, p).end;
    var mark := Skip(s, k);
    SkipsBlank(s, k);
    var t := Sound(s, mark + 1);
    var end := ParseMember(s, p).end;
    m := Member(lead, g, s[k..mark], t, gap);
    assert s[mark..mark + 1] == ":";
    Slices(s, k, mark, mark + 1);
    Slices(s, p, k, mark + 1);
    Slices(s, p, mark + 1, end);
  }

  lemma {:induction false} MembersSound(s: string, p: nat, done: seq<Pair>) returns (members: seq<Member>)
    requires p <= |s| && Members(s, p, done).Ok?
    ensures members != [] && WellMembers(members) && |done| + |members| <= 128
    ensures Members(s, p, done).value == done + MembersValue(members)
    ensures MembersText(members) == s[p..Members(s, p, done).end]
    decreases |s| - p, 3
  {
    hide ParseMember, Skip, Blank, MemberText, Meaning, WellMember, GlyphValue, MembersText, MembersValue, WellMembers;
    var end := Members(s, p, done).end;
    var q := ParseMember(s, p).end;
    var mark := Skip(s, q);
    SkipsBlank(s, q);
    var m := MemberSound(s, p, s[q..mark]);
    var pair := Pair(GlyphValue(m.key), Meaning(m.tree));
    var rest := [];
    NoItems();
    if Next(s, q, ',') {
      rest := MembersSound(s, mark + 1, done + [pair]);
    }
    members := [m] + rest;
    MembersAre(s, p, q, mark, end, m, rest);
    assert done + [pair] + MembersValue(rest) == done + MembersValue(members);
  }

  lemma MembersAre(s: string, p: nat, q: nat, mark: nat, end: nat, m: Member, rest: seq<Member>)
    requires p <= q <= mark < end <= |s| && MemberText(m) == s[p..q] && m.gap == s[q..mark]
    requires if rest == [] then s[mark] == '}' && end == mark + 1
             else s[mark] == ',' && MembersText(rest) == s[mark + 1..end]
    ensures MembersText([m] + rest) == s[p..end]
    ensures MembersValue([m] + rest) == [Pair(GlyphValue(m.key), Meaning(m.tree))] + MembersValue(rest)
    ensures Blank(m.gap) && WellMember(m) && WellMembers(rest) ==> WellMembers([m] + rest)
  {
    hide MemberText, Meaning, WellMember, Blank, GlyphValue;
    var members := [m] + rest;
    assert members[1..] == rest;
    var tail := if rest == [] then "}" else "," + MembersText(rest);
    assert tail == s[mark..end] by {
      Slices(s, mark, mark + 1, end);
    }
    assert MembersText(members) == s[p..q] + (s[q..mark] + tail);
    Slices(s, q, mark, end);
    Slices(s, p, q, end);
  }

  // ----- and it accepts all of them -----

  /** A value starts with a character that is neither white space nor a closing bracket. */
  lemma CoreStart(t: Tree)
    requires Well(t)
    ensures Core(t) != "" && !Blank([Core(t)[0]]) && Core(t)[0] != ']' && Core(t)[0] != '}'
  {
    hide ItemsText, MembersText, GlyphText, IsFraction, IsExponent, WellItems, WellMembers;
    assert [Core(t)[0]][0] == Core(t)[0];
  }

  /** White space, then a mark: where it is found, and that a value may end before it. */
  lemma GapAt(s: string, q: nat, gap: string, tail: string)
    requires At(s, q, gap + tail) && Blank(gap) && tail != "" && tail[0] in {',', ']', '}', ':'}
    ensures var m := q + |gap|;
            && q <= |s| && Skip(s, q) == m < |s| && s[m] == tail[0] && At(s, m + 1, tail[1..])
            && (tail[0] != ':' ==> Delimited(s, q))
  {
    hide At;
    AtSplit(s, q, gap, tail);
    var m := q + |gap|;
    AtChar(s, m, tail);
    assert [s[m]][0] == s[m];
    SkipOver(s, q, gap);
    if gap != "" {
      AtChar(s, q, gap);
      assert gap[0] in {' ', '\t', '\n', '\r'};
    }
  }

  lemma {:induction false} Complete(s: string, p: nat, t: Tree)
    requires Well(t) && At(s, p, Text(t)) && Delimited(s, p + |Text(t)|)
    ensures p <= |s| && ParseValue(s, p) == Ok(Meaning(t), p + |Text(t)|)
    decreases t, 2
  {
    hide At, Core, Meaning, ParseValue, Delimited;
    var q := p + |t.lead|;
    AtSplit(s, p, t.lead, Core(t));
    CoreStart(t);
    AtChar(s, q, Core(t));
    SkipOver(s, p, t.lead);
    SkipTwice(s, p);
    SkipValue(s, p);
    CoreComplete(s, q, t);
  }

  lemma {:induction false} CoreComplete(s: string, p: nat, t: Tree)
    requires Well(t) && At(s, p, Core(t)) && Delimited(s, p + |Core(t)|)
    ensures p <= |s| && ParseValue(s, p) == Ok(Meaning(t), p + |Core(t)|)
    decreases t, 1
  {
    match t {
      case Word(_, v) => WordComplete(s, p, v);
      case Numbers(_, _, _, _, _) =>
        NumberComplete(s, p, t);
        NumberValue(s, p);
      case Str(_, glyphs) => StrComplete(s, p, glyphs);
      case Arr(_, _, _) => ArrComplete(s, p, t);
      case Obj(_, _, _) => ObjComplete(s, p, t);
    }
  }

  lemma WordComplete(s: string, p: nat, v: Value)
    requires (v.Null? || v.Bool?) && At(s, p, WordOf(v))
    ensures p <= |s| && ParseValue(s, p) == Ok(v, p + |WordOf(v)|)
  {
    hide At, Literal, Items, Members, ParseNumber, ParseString;
    LiteralAt(s, p, WordOf(v));
  }

  lemma NumberValue(s: string, p: nat)
    requires p < |s| && (Digit(s[p]) || s[p] == '-') && Skip(s, p) == p && ParseNumber(s, p).Ok?
    ensures ParseValue(s, p) == Ok(Number(ParseNumber(s, p).value), ParseNumber(s, p).end)
  {
    hide ParseNumber, Items, Members, ParseString;
  }

  lemma StrComplete(s: string, p: nat, g: seq<Glyph>)
    requires Plain(g) && At(s, p, Quote(g))
    ensures p <= |s| && ParseValue(s, p) == Ok(String(GlyphValue(g)), p + |Quote(g)|)
  {
    hide At, Items, Members, ParseNumber, ParseString, GlyphText, GlyphValue, Plain;
    assert "" + Quote(g) == Quote(g);
    AtChar(s, p, Quote(g));
    StringComplete(s, p, "", g);
  }

  lemma {:induction false} ArrComplete(s: string, p: nat, t: Tree)
    requires t.Arr? && Well(t) && At(s, p, Core(t))
    ensures p <= |s| && ParseValue(s, p) == Ok(Meaning(t), p + |Core(t)|)
    decreases t, 0
  {
    hide At, Items, Members, ItemsText, ItemsValue, WellItems, Next, Delimited;
    var rest := if t.items == [] then t.gap + "]" else ItemsText(t.items);
    AtSplit(s, p, "[", rest);
    AtChar(s, p, "[");
    if t.items == [] {
      GapAt(s, p + 1, t.gap, "]");
      EmptyArray(s, p);
      NoItems();
    } else {
      ItemsComplete(s, p + 1, t.items, []);
      FirstItem(s, p + 1, t.items);
      assert [] + ItemsValue(t.items) == ItemsValue(t.items);
      ArrayStep(s, p, ItemsValue(t.items), p + |Core(t)|);
    }
  }

  lemma NoItems()
    ensures ItemsValue([]) == [] && MembersValue([]) == [] && WellItems([]) && WellMembers([])
  {
  }

  lemma EmptyArray(s: string, p: nat)
    requires p < |s| && s[p] == '[' && Skip(s, p + 1) < |s| && s[Skip(s, p + 1)] == ']'
    ensures ParseValue(s, p) == Ok(Array([]), Skip(s, p + 1) + 1)
  {
    hide Items, Members;
  }

  lemma EmptyObject(s: string, p: nat)
    requires p < |s| && s[p] == '{' && Skip(s, p + 1) < |s| && s[Skip(s, p + 1)] == '}'
    ensures ParseValue(s, p) == Ok(Object([]), Skip(s, p + 1) + 1)
  {
    hide Items, Members;
  }

  /** The first item is not a closing bracket. */
  lemma FirstItem(s: string, p: nat, items: seq<Item>)
    requires items != [] && WellItems(items) && At(s, p, ItemsText(items))
    ensures p <= |s| && !Next(s, p, ']')
  {
    hide At, Core;
    var t := items[0].tree;
    AtSplit(s, p, Text(t), items[0].gap + if |items| == 1 then "]" else "," + ItemsText(items[1..]));
    AtSplit(s, p, t.lead, Core(t));
    CoreStart(t);
    AtChar(s, p + |t.lead|, Core(t));
    SkipOver(s, p, t.lead);
  }

  lemma FirstMember(s: string, p: nat, members: seq<Member>)
    requires members != [] && WellMembers(members) && At(s, p, MembersText(members))
    ensures p <= |s| && !Next(s, p, '}')
  {
    hide At, GlyphText, Text;
    var m := members[0];
    AtSplit(s, p, MemberText(m), m.gap + if |members| == 1 then "}" else "," + MembersText(members[1..]));
    assert MemberText(m) == m.lead + (Quote(m.key) + (m.colon + ":") + Text(m.tree));
    AtSplit(s, p, m.lead, Quote(m.key) + (m.colon + ":") + Text(m.tree));
    AtChar(s, p + |m.lead|, Quote(m.key) + (m.colon + ":") + Text(m.tree));
    assert [s[p + |m.lead|]][0] == '"';
    SkipOver(s, p, m.lead);
  }

  lemma ItemsGap(s: string, p: nat, done: seq<Value>, v: Value, q: nat, last: bool)
    requires |done| < 256 && p <= |s| && ParseValue(s, p) == Ok(v, q)
    requires Skip(s, q) < |s| && s[Skip(s, q)] == if last then ']' else ','
    ensures var m := Skip(s, q);
            Items(s, p, done) == if last then Ok(done + [v], m + 1) else Items(s, m + 1, done + [v])
  {
    hide ParseValue, Skip;
  }

  lemma {:induction false} ItemsComplete(s: string, p: nat, items: seq<Item>, done: seq<Value>)
    requires items != [] && WellItems(items) && At(s, p, ItemsText(items)) && |done| + |items| <= 256
    ensures p <= |s| && Items(s, p, done) == Ok(done + ItemsValue(items), p + |ItemsText(items)|)
    decreases items, 0
  {
    hide At, Text, Meaning, Well, ParseValue, Items, Delimited, Blank;
    var last, x := |items| == 1, items[0];
    var tail := if last then "]" else "," + ItemsText(items[1..]);
    var q := p + |Text(x.tree)|;
    AtSplit(s, p, Text(x.tree), x.gap + tail);
    GapAt(s, q, x.gap, tail);
    Complete(s, p, x.tree);
    ItemsGap(s, p, done, Meaning(x.tree), q, last);
    if last {
      assert ItemsValue(items) == [Meaning(x.tree)];
    } else {
      assert tail[1..] == ItemsText(items[1..]);
      ItemsComplete(s, q + |x.gap| + 1, items[1..], done + [Meaning(x.tree)]);
      assert done + [Meaning(x.tree)] + ItemsValue(items[1..]) == done + ItemsValue(items);
    }
  }

  lemma {:induction false} ObjComplete(s: string, p: nat, t: Tree)
    requires t.Obj? && Well(t) && At(s, p, Core(t))
    ensures p <= |s| && ParseValue(s, p) == Ok(Meaning(t), p + |Core(t)|)
    decreases t, 0
  {
    hide At, Items, Members, MembersText, MembersValue, WellMembers, Next, Delimited;
    var rest := if t.members == [] then t.gap + "}" else MembersText(t.members);
    AtSplit(s, p, "{", rest);
    AtChar(s, p, "{");
    if t.members == [] {
      GapAt(s, p + 1, t.gap, "}");
      EmptyObject(s, p);
      NoItems();
    } else {
      MembersComplete(s, p + 1, t.members, []);
      FirstMember(s, p + 1, t.members);
      assert [] + MembersValue(t.members) == MembersValue(t.members);
      ObjectStep(s, p, MembersValue(t.members), p + |Core(t)|);
    }
  }

  lemma {:induction false} MemberComplete(s: string, p: nat, m: Member)
    requires WellMember(m) && At(s, p, MemberText(m)) && Delimited(s, p + |MemberText(m)|)
    ensures p <= |s|
    ensures ParseMember(s, p) == Ok(Pair(GlyphValue(m.key), Meaning(m.tree)), p + |MemberText(m)|)
    decreases m, 3
  {
    hide At, Text, Meaning, Well, ParseValue, ParseString, Quote, GlyphValue, Plain, Delimited, Blank;
    var key := m.lead + Quote(m.key);
    var k := p + |key|;
    AtSplit(s, p, key + (m.colon + ":"), Text(m.tree));
    AtSplit(s, p, key, m.colon + ":");
    StringComplete(s, p, m.lead, m.key);
    GapAt(s, k, m.colon, ":");
    Complete(s, k + |m.colon| + 1, m.tree);
  }

  lemma MembersGap(s: string, p: nat, done: seq<Pair>, pair: Pair, q: nat, last: bool)
    requires |done| < 128 && p <= |s| && ParseMember(s, p) == Ok(pair, q)
    requires Skip(s, q) < |s| && s[Skip(s, q)] == if last then '}' else ','
    ensures var m := Skip(s, q);
            Members(s, p, done) == if last then Ok(done + [pair], m + 1) else Members(s, m + 1, done + [pair])
  {
    hide ParseMember, Skip;
  }

  lemma {:induction false} MembersComplete(s: string, p: nat, members: seq<Member>, done: seq<Pair>)
    requires members != [] && WellMembers(members) && At(s, p, MembersText(members)) && |done| + |members| <= 128
    ensures p <= |s| && Members(s, p, done) == Ok(done + MembersValue(members), p + |MembersText(members)|)
    decreases members, 0
  {
    hide At, MemberText, Meaning, WellMember, ParseMember, Members, Delimited, Blank, GlyphValue;
    var last, x := |members| == 1, members[0];
    var pair := Pair(GlyphValue(x.key), Meaning(x.tree));
    var tail := if last then "}" else "," + MembersText(members[1..]);
    var q := p + |MemberText(x)|;
    AtSplit(s, p, MemberText(x), x.gap + tail);
    GapAt(s, q, x.gap, tail);
    MemberComplete(s, p, x);
    MembersGap(s, p, done, pair, q, last);
    if last {
      assert MembersValue(members) == [pair];
    } else {
      assert tail[1..] == MembersText(members[1..]);
      MembersComplete(s, q + |x.gap| + 1, members[1..], done + [pair]);
      assert done + [pair] + MembersValue(members[1..]) == done + MembersValue(members);
    }
  }

  /** `text` is a document that means `v`. */
  ghost predicate Writes(text: string, v: Value) {
    exists t: Tree :: Well(t) && Text(t) == text && Meaning(t) == v
  }

  /** A whole text parses, with nothing left over, to exactly the value it is a document of. */
  lemma ParsesExactly(s: string, v: Value)
    ensures ParseValue(s, 0) == Ok(v, |s|) <==> Writes(s, v)
  {
    hide ParseValue, Text, Meaning, Well;
    assert s[0..|s|] == s;
    if ParseValue(s, 0) == Ok(v, |s|) {
      var t := Sound(s, 0);
      assert Well(t) && Text(t) == s && Meaning(t) == v;
    }
    if Writes(s, v) {
      var t: Tree :| Well(t) && Text(t) == s && Meaning(t) == v;
      Complete(s, 0, t);
    }
  }

  /** No text is a document of two values. */
  lemma MeaningIsUnique(s: string, v: Value, w: Value)
    requires Writes(s, v) && Writes(s, w)
    ensures v == w
  {
    hide ParseValue, Writes;
    ParsesExactly(s, v);
    ParsesExactly(s, w);
  }

  /** Fractions and exponents are read and dropped. */
  lemma NumberSpellings()
    ensures ParseValue("1.5", 0) == Ok(Number(1), 3) && ParseValue("1e3", 0) == Ok(Number(1), 3)
  {
    hide ParseValue;
    assert NumeralValue("1") == 1;
    var a, b := Numbers("", false, "1", ".5", ""), Numbers("", false, "1", "", "e3");
    assert Text(a) == "1.5" && Text(b) == "1e3";
    Complete("1.5", 0, a);
    Complete("1e3", 0, b);
  }

  /** Backspace and form feed, by their escapes. */
  lemma EscapeSpellings()
    ensures ParseValue("\"\\b\\f\"", 0) == Ok(String([8 as char, 12 as char]), 6)
  {
    hide ParseValue;
    var g := [Escaped('b'), Escaped('f')];
    assert g[1..] == [Escaped('f')] && g[1..][1..] == [];
    assert GlyphText(g[1..]) == "\\f" && GlyphText(g) == "\\b\\f";
    assert GlyphValue(g[1..]) == [12 as char] && GlyphValue(g) == [8 as char, 12 as char];
    assert Text(Str("", g)) == "\"\\b\\f\"";
    Complete("\"\\b\\f\"", 0, Str("", g));
  }
}
