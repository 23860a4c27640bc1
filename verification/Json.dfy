/**
 * The JSON values of kernel/lib/json.c, the grammar its parser accepts as functions from
 * a position, and a printer that inverts it.  Numbers are integers; fractions and
 * exponents are skipped, as in the source.
 */
module Json {
  import opened Results

  datatype Result<+T> = Ok(value: T, end: nat) | Err(error: Error)

  datatype Value =
    | Null
    | Bool(b: bool)
    | Number(n: int)
    | String(s: string)
    | Array(items: seq<Value>)
    | Object(pairs: seq<Pair>)

  datatype Pair = Pair(key: string, value: Value)

  const ARRAY_MAX: nat := 256
  const OBJECT_MAX: nat := 128

  // ----- the grammar -----

  predicate Space(c: char) { c == ' ' || c == '\t' || c == '\n' || c == '\r' }
  predicate Digit(c: char) { '0' <= c <= '9' }

  function Skip(s: string, p: nat): (q: nat)
    requires p <= |s|
    ensures p <= q <= |s| && (q < |s| ==> !Space(s[q]))
    decreases |s| - p
  {
    if p < |s| && Space(s[p]) then Skip(s, p + 1) else p
  }

  /** After white space, the character `c` comes next. */
  predicate Next(s: string, p: nat, c: char)
    requires p <= |s|
  {
    Skip(s, p) < |s| && s[Skip(s, p)] == c
  }

  function Unescape(c: char): char {
    if c == 'b' then '\U{0008}' else if c == 'f' then '\U{000c}' else if c == 'n' then '\n'
    else if c == 'r' then '\r' else if c == 't' then '\t' else c
  }

  /** The characters up to the closing quote, escapes resolved. */
  function Chars(s: string, p: nat): (r: Result<string>)
    requires p <= |s|
    ensures r.Ok? ==> p < r.end <= |s|
    ensures r.Err? ==> r.error == EINVAL
    decreases |s| - p
  {
    if p == |s| then Err(EINVAL)
    else if s[p] == '"' then Ok("", p + 1)
    else if s[p] == '\\' then
      if p + 1 == |s| then Err(EINVAL)
      else match Chars(s, p + 2)
        case Err(e) => Err(e)
        case Ok(rest, end) => Ok([Unescape(s[p + 1])] + rest, end)
    else match Chars(s, p + 1)
      case Err(e) => Err(e)
      case Ok(rest, end) => Ok([s[p]] + rest, end)
  }

  function ParseString(s: string, p: nat): (r: Result<string>)
    requires p <= |s|
    ensures r.Ok? ==> p < r.end <= |s|
  {
    if Next(s, p, '"') then Chars(s, Skip(s, p) + 1) else Err(EINVAL)
  }

  function Digits(s: string, p: nat): (q: nat)
    requires p <= |s|
    ensures p <= q <= |s| && (q < |s| ==> !Digit(s[q]))
    ensures forall k | p <= k < q :: Digit(s[k])
    decreases |s| - p
  {
    if p < |s| && Digit(s[p]) then Digits(s, p + 1) else p
  }

  /** The number written by the digits `s[p..q]`. */
  function Decimal(s: string, p: nat, q: nat): int
    requires p <= q <= |s|
  {
    if p == q then 0 else Decimal(s, p, q - 1) * 10 + (s[q - 1] as int - '0' as int)
  }

  function Fraction(s: string, p: nat): (q: nat)
    requires p <= |s|
    ensures p <= q <= |s|
  {
    if p < |s| && s[p] == '.' then Digits(s, p + 1) else p
  }

  function Exponent(s: string, p: nat): (q: nat)
    requires p <= |s|
    ensures p <= q <= |s|
  {
    if p < |s| && (s[p] == 'e' || s[p] == 'E') then
      if p + 1 < |s| && (s[p + 1] == '+' || s[p + 1] == '-') then Digits(s, p + 2) else Digits(s, p + 1)
    else p
  }

  function ParseNumber(s: string, p: nat): (r: Result<int>)
    requires p <= |s|
    ensures r.Ok? ==> p < r.end <= |s|
  {
    var q := Skip(s, p);
    var negative := q < |s| && s[q] == '-';
    var d := if negative then q + 1 else q;
    var e := Digits(s, d);
    if e == d then Err(EINVAL)
    else
      var val := Decimal(s, d, e);
      Ok(if negative then -val else val, Exponent(s, Fraction(s, e)))
  }

  predicate Literal(s: string, p: nat, word: string)
    requires p <= |s|
  {
    var q := Skip(s, p);
    q + |word| <= |s| && s[q..q + |word|] == word
  }

  function ParseValue(s: string, p: nat): (r: Result<Value>)
    requires p <= |s|
    ensures r.Ok? ==> p < r.end <= |s|
    decreases |s| - p, 1
  {
    var q := Skip(s, p);
    if q == |s| then Err(EINVAL)
    else if s[q] == '"' then
      match ParseString(s, p)
      case Err(e) => Err(e)
      case Ok(x, end) => Ok(String(x), end)
    else if s[q] == '{' then
      if Next(s, q + 1, '}') then Ok(Object([]), Skip(s, q + 1) + 1)
      else match Members(s, q + 1, [])
        case Err(e) => Err(e)
        case Ok(pairs, end) => Ok(Object(pairs), end)
    else if s[q] == '[' then
      if Next(s, q + 1, ']') then Ok(Array([]), Skip(s, q + 1) + 1)
      else match Items(s, q + 1, [])
        case Err(e) => Err(e)
        case Ok(items, end) => Ok(Array(items), end)
    else if s[q] == 't' then if Literal(s, p, "true") then Ok(Bool(true), q + 4) else Err(EINVAL)
    else if s[q] == 'f' then if Literal(s, p, "false") then Ok(Bool(false), q + 5) else Err(EINVAL)
    else if s[q] == 'n' then if Literal(s, p, "null") then Ok(Null, q + 4) else Err(EINVAL)
    else if Digit(s[q]) || s[q] == '-' then
      match ParseNumber(s, p)
      case Err(e) => Err(e)
      case Ok(n, end) => Ok(Number(n), end)
    else Err(EINVAL)
  }

  /** The rest of a non-empty array, after the items in `done`. */
  function Items(s: string, p: nat, done: seq<Value>): (r: Result<seq<Value>>)
    requires p <= |s|
    ensures r.Ok? ==> p < r.end <= |s|
    decreases |s| - p, 2
  {
    if |done| >= ARRAY_MAX then Err(ENOMEM)
    else match ParseValue(s, p)
      case Err(e) => Err(e)
      case Ok(v, q) =>
        if Next(s, q, ',') then Items(s, Skip(s, q) + 1, done + [v])
        else if Next(s, q, ']') then Ok(done + [v], Skip(s, q) + 1)
        else Err(EINVAL)
  }

  /** A key, a colon and a value. */
  function ParseMember(s: string, p: nat): (r: Result<Pair>)
    requires p <= |s|
    ensures r.Ok? ==> p < r.end <= |s|
    decreases |s| - p, 2
  {
    match ParseString(s, p)
    case Err(e) => Err(e)
    case Ok(key, k) =>
      if !Next(s, k, ':') then Err(EINVAL)
      else match ParseValue(s, Skip(s, k) + 1)
        case Err(e) => Err(e)
        case Ok(v, q) => Ok(Pair(key, v), q)
  }

  /** The rest of a non-empty object, after the pairs in `done`. */
  function Members(s: string, p: nat, done: seq<Pair>): (r: Result<seq<Pair>>)
    requires p <= |s|
    ensures r.Ok? ==> p < r.end <= |s|
    decreases |s| - p, 3
  {
    if |done| >= OBJECT_MAX then Err(ENOMEM)
    else match ParseMember(s, p)
      case Err(e) => Err(e)
      case Ok(pair, q) =>
        if Next(s, q, ',') then Members(s, Skip(s, q) + 1, done + [pair])
        else if Next(s, q, '}') then Ok(done + [pair], Skip(s, q) + 1)
        else Err(EINVAL)
  }

  lemma SkipTwice(s: string, p: nat)
    requires p <= |s|
    ensures Skip(s, Skip(s, p)) == Skip(s, p)
  {
  }

  /** White space before a value, a string or a number makes no difference. */
  lemma SkipFirst(s: string, p: nat)
    requires p <= |s|
    ensures ParseString(s, Skip(s, p)) == ParseString(s, p) && ParseNumber(s, Skip(s, p)) == ParseNumber(s, p)
    ensures forall word :: Literal(s, Skip(s, p), word) == Literal(s, p, word)
  {
    hide Skip, Chars, Decimal, Digits, Exponent, Fraction;
    SkipTwice(s, p);
  }

  lemma SkipValue(s: string, p: nat)
    requires p <= |s|
    ensures ParseValue(s, Skip(s, p)) == ParseValue(s, p)
  {
    hide Skip, Next, Items, Members, ParseString, ParseNumber, Literal;
    SkipTwice(s, p);
    SkipFirst(s, p);
  }

  lemma SkipMember(s: string, p: nat)
    requires p <= |s|
    ensures ParseMember(s, Skip(s, p)) == ParseMember(s, p)
  {
    hide ParseValue, ParseString, Skip, Next, Literal, ParseNumber;
    SkipFirst(s, p);
  }

  // ----- the printer -----

  /** The escapes of `json_escape_append`. */
  function EscapeChar(c: char): string {
    if c == '"' then "\\\"" else if c == '\\' then "\\\\" else if c == '\n' then "\\n"
    else if c == '\r' then "\\r" else if c == '\t' then "\\t" else [c]
  }

  function Escape(x: string): string {
    if x == "" then "" else EscapeChar(x[0]) + Escape(x[1..])
  }

  function Quoted(x: string): string { "\"" + Escape(x) + "\"" }

  function DigitChar(d: nat): char
    requires d < 10
  {
    ('0' as int + d) as char
  }

  function PrintNat(n: nat): (r: string)
    ensures |r| > 0
  {
    if n < 10 then [DigitChar(n)] else PrintNat(n / 10) + [DigitChar(n % 10)]
  }

  function PrintInt(n: int): string {
    if n < 0 then "-" + PrintNat(-n) else PrintNat(n)
  }

  function Print(v: Value): string
    decreases v, 1
  {
    match v
    case Null => "null"
    case Bool(b) => if b then "true" else "false"
    case Number(n) => PrintInt(n)
    case String(x) => Quoted(x)
    case Array(items) => if items == [] then "[]" else "[" + PrintItems(items)
    case Object(pairs) => if pairs == [] then "{}" else "{" + PrintMembers(pairs)
  }

  function PrintItems(items: seq<Value>): string
    requires items != []
    decreases items, 0
  {
    Print(items[0]) + (if |items| == 1 then "]" else "," + PrintItems(items[1..]))
  }

  function PrintMembers(pairs: seq<Pair>): string
    requires pairs != []
    decreases pairs, 0
  {
    Quoted(pairs[0].key) + ":" + Print(pairs[0].value) + (if |pairs| == 1 then "}" else "," + PrintMembers(pairs[1..]))
  }

  const INT64_MAX: int := 0x7fff_ffff_ffff_ffff

  /** Values the parser can hold: numbers of 63 bits and a sign, no array or object too long. */
  predicate Holdable(v: Value) {
    match v
    case Number(n) => -INT64_MAX <= n <= INT64_MAX
    case Array(items) => |items| <= ARRAY_MAX && forall i | 0 <= i < |items| :: Holdable(items[i])
    case Object(pairs) => |pairs| <= OBJECT_MAX && forall i | 0 <= i < |pairs| :: Holdable(pairs[i].value)
    case _ => true
  }

  // ----- parsing what was printed -----

  /** `text` stands at position `p`. */
  ghost predicate At(s: string, p: nat, text: string) {
    p + |text| <= |s| && s[p..p + |text|] == text
  }

  lemma AtSplit(s: string, p: nat, a: string, b: string)
    requires At(s, p, a + b)
    ensures At(s, p, a) && At(s, p + |a|, b) && p + |a| + |b| <= |s|
  {
    var t := s[p..p + |a + b|];
    assert s[p..p + |a|] == t[..|a|];
    assert s[p + |a|..p + |a| + |b|] == t[|a|..];
  }

  lemma AtChar(s: string, p: nat, text: string)
    requires At(s, p, text) && text != ""
    ensures p + |text| <= |s| && s[p] == text[0] && At(s, p + 1, text[1..])
  {
    AtSplit(s, p, text[..1], text[1..]);
    assert text[..1] + text[1..] == text;
    assert s[p..p + 1][0] == text[0];
  }

  /** An escape is one harmless character, or a backslash and what it stands for. */
  lemma EscapeCharParts(c: char)
    ensures var e := EscapeChar(c);
            || (e == [c] && c != '"' && c != '\\')
            || (|e| == 2 && e[0] == '\\' && Unescape(e[1]) == c)
  {
  }

  lemma {:induction false} CharsOfEscape(s: string, p: nat, x: string)
    requires At(s, p, Escape(x)) && At(s, p + |Escape(x)|, "\"")
    ensures Chars(s, p) == Ok(x, p + |Escape(x)| + 1)
    decreases x
  {
    hide At, EscapeChar, Unescape;
    if x == "" {
      AtChar(s, p, "\"");
    } else {
      var c := EscapeChar(x[0]);
      EscapeCharParts(x[0]);
      AtSplit(s, p, c, Escape(x[1..]));
      CharsOfEscape(s, p + |c|, x[1..]);
      AtChar(s, p, c);
      if |c| == 2 {
        AtChar(s, p + 1, c[1..]);
      }
      assert x == [x[0]] + x[1..];
    }
  }

  lemma StringOfQuoted(s: string, p: nat, x: string)
    requires At(s, p, Quoted(x))
    ensures ParseString(s, p) == Ok(x, p + |Quoted(x)|)
    ensures p < |s| && s[p] == '"' && Skip(s, p) == p
  {
    hide At, Chars, Escape;
    assert Quoted(x) == "\"" + (Escape(x) + "\"");
    AtSplit(s, p, "\"", Escape(x) + "\"");
    AtSplit(s, p + 1, Escape(x), "\"");
    AtChar(s, p, "\"");
    CharsOfEscape(s, p + 1, x);
  }

  /** What may follow a printed value. */
  predicate Follows(s: string, q: nat) {
    q >= |s| || s[q] == ',' || s[q] == ']' || s[q] == '}'
  }

  lemma {:induction false} NatOfPrinted(s: string, p: nat, n: nat)
    requires At(s, p, PrintNat(n))
    ensures p + |PrintNat(n)| <= |s| && forall k | p <= k < p + |PrintNat(n)| :: Digit(s[k])
    ensures Decimal(s, p, p + |PrintNat(n)|) == n
  {
    if n < 10 {
      AtChar(s, p, PrintNat(n));
      assert Decimal(s, p, p) == 0;
    } else {
      AtSplit(s, p, PrintNat(n / 10), [DigitChar(n % 10)]);
      NatOfPrinted(s, p, n / 10);
      AtChar(s, p + |PrintNat(n / 10)|, [DigitChar(n % 10)]);
    }
  }

  /** More digits, no smaller a number. */
  lemma {:induction false} DecimalGrows(s: string, p: nat, k: nat, q: nat)
    requires p <= k <= q <= |s| && forall i | p <= i < q :: Digit(s[i])
    ensures 0 <= Decimal(s, p, k) <= Decimal(s, p, q)
    decreases q
  {
    if k < q {
      DecimalGrows(s, p, k, q - 1);
    } else if p < k {
      DecimalGrows(s, p, k - 1, k - 1);
    }
  }

  /** Where the whole number fits in 63 bits, so does every value of the parser's 64-bit accumulator. */
  lemma AccumulatorFits(s: string, p: nat, q: nat)
    requires p <= q <= |s| && (forall i | p <= i < q :: Digit(s[i])) && Decimal(s, p, q) <= INT64_MAX
    ensures forall k | p <= k <= q :: 0 <= Decimal(s, p, k) <= INT64_MAX
  {
    forall k | p <= k <= q ensures 0 <= Decimal(s, p, k) <= INT64_MAX {
      DecimalGrows(s, p, k, q);
    }
  }

  lemma {:induction false} DigitsEnd(s: string, p: nat, q: nat)
    requires p <= q <= |s| && (forall k | p <= k < q :: Digit(s[k])) && (q < |s| ==> !Digit(s[q]))
    ensures Digits(s, p) == q
    decreases q - p
  {
    if p < q {
      DigitsEnd(s, p + 1, q);
    }
  }

  lemma NumberOfPrinted(s: string, p: nat, n: int)
    requires At(s, p, PrintInt(n)) && Follows(s, p + |PrintInt(n)|)
    ensures ParseNumber(s, p) == Ok(n, p + |PrintInt(n)|)
    ensures p < |s| && Skip(s, p) == p && (Digit(s[p]) || s[p] == '-')
  {
    hide At, Decimal, Digits, PrintNat;
    var d, m := if n < 0 then p + 1 else p, if n < 0 then -n else n;
    if n < 0 {
      AtSplit(s, p, "-", PrintNat(m));
      AtChar(s, p, "-");
    }
    NatOfPrinted(s, d, m);
    DigitsEnd(s, d, d + |PrintNat(m)|);
    assert Digit(s[d]);
  }

  lemma LiteralAt(s: string, p: nat, word: string)
    requires At(s, p, word) && word != "" && !Space(word[0])
    ensures Skip(s, p) == p < |s| && s[p] == word[0] && Literal(s, p, word)
  {
    AtChar(s, p, word);
  }

  /** A punctuation mark is found where it stands. */
  lemma MarkAt(s: string, p: nat, c: char)
    requires At(s, p, [c]) && !Space(c)
    ensures p < |s| && Skip(s, p) == p && s[p] == c && Next(s, p, c)
  {
    AtChar(s, p, [c]);
  }

  lemma ArrayStep(s: string, p: nat, items: seq<Value>, end: nat)
    requires p < |s| && Skip(s, p) == p && s[p] == '[' && !Next(s, p + 1, ']')
    requires Items(s, p + 1, []) == Ok(items, end)
    ensures ParseValue(s, p) == Ok(Array(items), end)
  {
    hide Items, Skip, Next;
  }

  lemma ObjectStep(s: string, p: nat, pairs: seq<Pair>, end: nat)
    requires p < |s| && Skip(s, p) == p && s[p] == '{' && !Next(s, p + 1, '}')
    requires Members(s, p + 1, []) == Ok(pairs, end)
    ensures ParseValue(s, p) == Ok(Object(pairs), end)
  {
    hide Members, Skip, Next;
  }

  lemma ScalarPrinted(s: string, p: nat, v: Value)
    requires !v.Array? && !v.Object? && At(s, p, Print(v)) && Follows(s, p + |Print(v)|)
    ensures ParseValue(s, p) == Ok(v, p + |Print(v)|)
  {
    hide At, Literal, Items, Members, ParseNumber, ParseString, PrintInt, Quoted;
    match v {
      case Null => LiteralAt(s, p, "null");
      case Bool(b) => LiteralAt(s, p, if b then "true" else "false");
      case Number(n) => NumberOfPrinted(s, p, n);
      case String(x) => StringOfQuoted(s, p, x);
    }
  }

  lemma EmptyPrinted(s: string, p: nat, v: Value)
    requires (v == Array([]) || v == Object([])) && At(s, p, Print(v))
    ensures ParseValue(s, p) == Ok(v, p + |Print(v)|)
  {
    hide At, Items, Members;
    if v.Array? {
      assert Print(v) == "[" + "]";
      AtSplit(s, p, "[", "]");
      MarkAt(s, p, '[');
      MarkAt(s, p + 1, ']');
    } else {
      assert Print(v) == "{" + "}";
      AtSplit(s, p, "{", "}");
      MarkAt(s, p, '{');
      MarkAt(s, p + 1, '}');
    }
  }

  /**
   * Parsing is a left inverse of printing, for every value within the parser's limits and
   * wherever in a text it stands.
   */
  lemma {:induction false} ParsePrinted(s: string, p: nat, v: Value)
    requires Holdable(v) && At(s, p, Print(v)) && Follows(s, p + |Print(v)|)
    ensures ParseValue(s, p) == Ok(v, p + |Print(v)|)
    decreases v, 1
  {
    hide At, ParseValue, Items, Members, PrintItems, PrintMembers, Follows;
    if v == Array([]) || v == Object([]) {
      EmptyPrinted(s, p, v);
    } else if v.Array? {
      AtSplit(s, p, "[", PrintItems(v.items));
      MarkAt(s, p, '[');
      ItemsPrinted(s, p + 1, v.items, []);
      ItemsStart(s, p + 1, v.items);
      assert [] + v.items == v.items;
      ArrayStep(s, p, v.items, p + |Print(v)|);
    } else if v.Object? {
      AtSplit(s, p, "{", PrintMembers(v.pairs));
      MarkAt(s, p, '{');
      MembersPrinted(s, p + 1, v.pairs, []);
      MembersStart(s, p + 1, v.pairs);
      assert [] + v.pairs == v.pairs;
      ObjectStep(s, p, v.pairs, p + |Print(v)|);
    } else {
      ScalarPrinted(s, p, v);
    }
  }

  /** A printed value does not begin with a closing bracket. */
  lemma PrintStart(s: string, p: nat, v: Value)
    requires At(s, p, Print(v))
    ensures p < |s| && s[p] != ']' && Skip(s, p) == p
  {
    match v {
      case Number(n) =>
        var d := if n < 0 then p + 1 else p;
        var m := if n < 0 then -n else n;
        if n < 0 {
          AtSplit(s, p, "-", PrintNat(m));
          AtChar(s, p, "-");
        }
        NatOfPrinted(s, d, m);
      case _ => AtChar(s, p, Print(v));
    }
  }

  lemma ItemsStart(s: string, p: nat, items: seq<Value>)
    requires items != [] && At(s, p, PrintItems(items))
    ensures !Next(s, p, ']')
  {
    AtSplit(s, p, Print(items[0]), if |items| == 1 then "]" else "," + PrintItems(items[1..]));
    PrintStart(s, p, items[0]);
  }

  lemma MembersStart(s: string, p: nat, pairs: seq<Pair>)
    requires pairs != [] && At(s, p, PrintMembers(pairs))
    ensures !Next(s, p, '}')
  {
    AtChar(s, p, PrintMembers(pairs));
  }

  lemma ItemsStep(s: string, p: nat, done: seq<Value>, v: Value, q: nat, last: bool)
    requires |done| < ARRAY_MAX && p <= |s| && ParseValue(s, p) == Ok(v, q) && q < |s| && Skip(s, q) == q
    requires s[q] == if last then ']' else ','
    ensures Items(s, p, done) == if last then Ok(done + [v], q + 1) else Items(s, q + 1, done + [v])
  {
    hide ParseValue, Skip;
  }

  lemma {:induction false} ItemsPrinted(s: string, p: nat, items: seq<Value>, done: seq<Value>)
    requires items != [] && At(s, p, PrintItems(items)) && |done| + |items| <= ARRAY_MAX
    requires forall i | 0 <= i < |items| :: Holdable(items[i])
    ensures p <= |s| && Items(s, p, done) == Ok(done + items, p + |PrintItems(items)|)
    decreases items, 0
  {
    hide At, Print, ParseValue, Items, Holdable;
    var last := |items| == 1;
    var rest := if last then "]" else "," + PrintItems(items[1..]);
    var q := p + |Print(items[0])|;
    AtSplit(s, p, Print(items[0]), rest);
    AtChar(s, q, rest);
    ParsePrinted(s, p, items[0]);
    ItemsStep(s, p, done, items[0], q, last);
    if last {
      assert items == [items[0]];
    } else {
      AtSplit(s, q, ",", PrintItems(items[1..]));
      ItemsPrinted(s, q + 1, items[1..], done + [items[0]]);
      assert done + [items[0]] + items[1..] == done + items;
    }
  }

  lemma MembersStep(s: string, p: nat, done: seq<Pair>, key: string, k: nat, v: Value, q: nat, last: bool)
    requires |done| < OBJECT_MAX && p <= |s| && ParseString(s, p) == Ok(key, k)
    requires k < |s| && Skip(s, k) == k && Next(s, k, ':')
    requires ParseValue(s, k + 1) == Ok(v, q) && q < |s| && Skip(s, q) == q
    requires s[q] == if last then '}' else ','
    ensures Members(s, p, done) == if last then Ok(done + [Pair(key, v)], q + 1)
        else Members(s, q + 1, done + [Pair(key, v)])
  {
    hide ParseValue, ParseString, Skip;
  }

  lemma {:induction false} MembersPrinted(s: string, p: nat, pairs: seq<Pair>, done: seq<Pair>)
    requires pairs != [] && At(s, p, PrintMembers(pairs)) && |done| + |pairs| <= OBJECT_MAX
    requires forall i | 0 <= i < |pairs| :: Holdable(pairs[i].value)
    ensures p <= |s| && Members(s, p, done) == Ok(done + pairs, p + |PrintMembers(pairs)|)
    decreases pairs, 0
  {
    hide At, Print, ParseValue, ParseString, Quoted, Members, Holdable;
    var last := |pairs| == 1;
    var key, v := pairs[0].key, pairs[0].value;
    var rest := if last then "}" else "," + PrintMembers(pairs[1..]);
    var k := p + |Quoted(key)|;
    var q := k + 1 + |Print(v)|;
    MemberAt(s, p, key, v, rest);
    AtChar(s, q, rest);
    ParsePrinted(s, k + 1, v);
    MembersStep(s, p, done, key, k, v, q, last);
    assert pairs[0] == Pair(key, v);
    if last {
      assert pairs == [pairs[0]];
    } else {
      AtSplit(s, q, ",", PrintMembers(pairs[1..]));
      MembersPrinted(s, q + 1, pairs[1..], done + [pairs[0]]);
      assert done + [pairs[0]] + pairs[1..] == done + pairs;
    }
  }

  /** The parts of a printed member. */
  lemma MemberAt(s: string, p: nat, key: string, v: Value, rest: string)
    requires At(s, p, Quoted(key) + ":" + Print(v) + rest)
    ensures var k := p + |Quoted(key)|;
            && ParseString(s, p) == Ok(key, k) && k < |s| && Skip(s, k) == k && Next(s, k, ':')
            && At(s, k + 1, Print(v)) && At(s, k + 1 + |Print(v)|, rest)
  {
    hide At, Print, ParseString, Quoted;
    AtSplit(s, p, Quoted(key) + ":" + Print(v), rest);
    AtSplit(s, p, Quoted(key) + ":", Print(v));
    AtSplit(s, p, Quoted(key), ":");
    StringOfQuoted(s, p, key);
    MarkAt(s, p + |Quoted(key)|, ':');
  }

  /** `anx_json_parse` on a printed document gives the document back. */
  lemma RoundTrip(v: Value)
    requires Holdable(v)
    ensures ParseValue(Print(v), 0) == Ok(v, |Print(v)|)
  {
    hide Print, ParseValue, Holdable;
    assert Print(v)[0..|Print(v)|] == Print(v);
    ParsePrinted(Print(v), 0, v);
  }
}
