/**
 * The recursive descent parser of kernel/lib/json.c: a cursor over the input that every
 * parse function advances.  Each method is proved to compute the grammar of `Json`, and
 * terminates on every input because the rest of the input shrinks.  Allocation succeeds.
 */
module JsonParser {
  import opened Results
  import opened Json

  class Parser {
    const input: string
    var pos: nat

    ghost predicate Valid()
      reads this
    {
      pos <= |input|
    }

    constructor (text: string)
      ensures Valid() && input == text && pos == 0
    {
      input, pos := text, 0;
    }

    method SkipWs()
      requires Valid()
      modifies this
      ensures Valid() && pos == Skip(input, old(pos))
    {
      while pos < |input| && Space(input[pos])
        invariant pos <= |input| && Skip(input, pos) == Skip(input, old(pos))
        decreases |input| - pos
      {
        pos := pos + 1;
      }
    }

    /** Skip white space, then take the expected character if it comes next. */
    method Match(c: char) returns (found: bool)
      requires Valid()
      modifies this
      ensures Valid() && found == Next(input, old(pos), c)
      ensures pos == if found then Skip(input, old(pos)) + 1 else Skip(input, old(pos))
    {
      SkipWs();
      found := pos < |input| && input[pos] == c;
      if found {
        pos := pos + 1;
      }
    }

    /** First pass over a string: find the closing quote, counting characters. */
    method CountChars() returns (ok: bool, len: nat)
      requires Valid()
      modifies this
      ensures Valid() && ok == Chars(input, old(pos)).Ok?
      ensures ok ==> pos == Chars(input, old(pos)).end && len == |Chars(input, old(pos)).value|
    {
      ghost var whole := Chars(input, pos);
      len := 0;
      while pos < |input| && input[pos] != '"'
        invariant old(pos) <= pos <= |input|
        invariant var rest := Chars(input, pos);
                  whole.Ok? == rest.Ok? && (whole.Ok? ==> whole.end == rest.end && |whole.value| == len + |rest.value|)
        decreases |input| - pos
      {
        if input[pos] == '\\' {
          pos := pos + 1;
          if pos >= |input| {
            return false, 0;
          }
        }
        len := len + 1;
        pos := pos + 1;
      }
      if pos >= |input| {
        return false, 0;
      }
      pos := pos + 1;
      ok := true;
    }

    /** Second pass: copy `len` characters, resolving escapes. */
    method CopyChars(start: nat, len: nat) returns (out: string)
      requires start <= |input| && Chars(input, start).Ok? && len == |Chars(input, start).value|
      ensures out == Chars(input, start).value
    {
      ghost var whole := Chars(input, start).value;
      out := "";
      var src: nat := start;
      while |out| < len
        invariant |out| <= len && src <= |input|
        invariant Chars(input, src).Ok? && whole == out + Chars(input, src).value
        decreases len - |out|
      {
        assert Chars(input, src).value != "";
        var c := input[src];
        src := src + 1;
        if c == '\\' {
          c := input[src];
          src := src + 1;
          c := Unescape(c);
        }
        out := out + [c];
      }
      assert whole == out;
    }

    method Str() returns (r: Result<string>)
      requires Valid()
      modifies this
      ensures Valid() && r == ParseString(input, old(pos)) && (r.Ok? ==> pos == r.end)
    {
      hide Chars;
      var quoted := Match('"');
      if !quoted {
        return Err(EINVAL);
      }
      var start := pos;
      var ok, len := CountChars();
      if !ok {
        return Err(EINVAL);
      }
      var out := CopyChars(start, len);
      r := Ok(out, pos);
    }

    method SkipDigits()
      requires Valid()
      modifies this
      ensures Valid() && pos == Digits(input, old(pos))
    {
      while pos < |input| && Digit(input[pos])
        invariant pos <= |input| && Digits(input, pos) == Digits(input, old(pos))
        decreases |input| - pos
      {
        pos := pos + 1;
      }
    }

    method Integer() returns (val: int)
      requires Valid()
      modifies this
      ensures Valid() && pos == Digits(input, old(pos)) && val == Decimal(input, old(pos), pos)
    {
      val := 0;
      while pos < |input| && Digit(input[pos])
        invariant old(pos) <= pos <= |input| && val == Decimal(input, old(pos), pos)
        invariant Digits(input, pos) == Digits(input, old(pos))
        decreases |input| - pos
      {
        val := val * 10 + (input[pos] as int - '0' as int);
        pos := pos + 1;
      }
    }

    /** Step over a fraction and an exponent. */
    method SkipTail()
      requires Valid()
      modifies this
      ensures Valid() && pos == Exponent(input, Fraction(input, old(pos)))
    {
      hide Digits;
      if pos < |input| && input[pos] == '.' {
        pos := pos + 1;
        SkipDigits();
      }
      if pos < |input| && (input[pos] == 'e' || input[pos] == 'E') {
        pos := pos + 1;
        if pos < |input| && (input[pos] == '+' || input[pos] == '-') {
          pos := pos + 1;
        }
        SkipDigits();
      }
    }

    method Num() returns (r: Result<int>)
      requires Valid()
      modifies this
      ensures Valid() && r == ParseNumber(input, old(pos)) && (r.Ok? ==> pos == r.end)
    {
      hide Decimal, Exponent, Fraction;
      var negative := false;
      SkipWs();
      if pos < |input| && input[pos] == '-' {
        negative := true;
        pos := pos + 1;
      }
      if pos >= |input| || !Digit(input[pos]) {
        return Err(EINVAL);
      }
      var val := Integer();
      SkipTail();
      r := Ok(if negative then -val else val, pos);
    }

    method MatchWord(word: string) returns (found: bool)
      requires Valid()
      modifies this
      ensures Valid() && found == Literal(input, old(pos), word)
      ensures pos == Skip(input, old(pos)) + if found then |word| else 0
    {
      SkipWs();
      found := pos + |word| <= |input| && input[pos..pos + |word|] == word;
      if found {
        pos := pos + |word|;
      }
    }

    /** The item loop of `parse_array`, the opening bracket already taken. */
    method Arr() returns (r: Result<seq<Value>>)
      requires Valid()
      modifies this
      ensures Valid() && r == Items(input, old(pos), []) && (r.Ok? ==> pos == r.end)
      decreases |input| - pos, 2
    {
      hide ParseValue;
      var items: seq<Value> := [];
      var more := true;
      while more
        invariant Valid() && old(pos) <= pos
        invariant more ==> Items(input, pos, items) == Items(input, old(pos), [])
        invariant !more ==> Items(input, old(pos), []) == if Next(input, pos, ']') then
          Ok(items, Skip(input, pos) + 1) else Err(EINVAL)
        decreases more, |input| - pos
      {
        if |items| >= ARRAY_MAX {
          return Err(ENOMEM);
        }
        var v := Val();
        if v.Err? {
          return Err(v.error);
        }
        items := items + [v.value];
        more := Match(',');
      }
      var closed := Match(']');
      r := if closed then Ok(items, pos) else Err(EINVAL);
    }

    method Member() returns (r: Result<Pair>)
      requires Valid()
      modifies this
      ensures Valid() && r == ParseMember(input, old(pos)) && (r.Ok? ==> pos == r.end)
      decreases |input| - pos, 2
    {
      hide ParseValue, ParseString;
      var key := Str();
      if key.Err? {
        return Err(key.error);
      }
      var colon := Match(':');
      if !colon {
        return Err(EINVAL);
      }
      var v := Val();
      r := if v.Err? then Err(v.error) else Ok(Pair(key.value, v.value), pos);
    }

    /** The member loop of `parse_object`, the opening brace already taken. */
    method Obj() returns (r: Result<seq<Pair>>)
      requires Valid()
      modifies this
      ensures Valid() && r == Members(input, old(pos), []) && (r.Ok? ==> pos == r.end)
      decreases |input| - pos, 3
    {
      hide ParseMember;
      var pairs: seq<Pair> := [];
      var more := true;
      while more
        invariant Valid() && old(pos) <= pos
        invariant more ==> Members(input, pos, pairs) == Members(input, old(pos), [])
        invariant !more ==> Members(input, old(pos), []) == if Next(input, pos, '}') then
          Ok(pairs, Skip(input, pos) + 1) else Err(EINVAL)
        decreases more, |input| - pos
      {
        if |pairs| >= OBJECT_MAX {
          return Err(ENOMEM);
        }
        var pair := Member();
        if pair.Err? {
          return Err(pair.error);
        }
        pairs := pairs + [pair.value];
        more := Match(',');
      }
      var closed := Match('}');
      r := if closed then Ok(pairs, pos) else Err(EINVAL);
    }

    /** `parse_value`: dispatch on the next character. */
    method Val() returns (r: Result<Value>)
      requires Valid()
      modifies this
      ensures Valid() && r == ParseValue(input, old(pos)) && (r.Ok? ==> pos == r.end)
      decreases |input| - pos, 1
    {
      hide Items, Members, ParseString, ParseNumber, Literal;
      ghost var start := pos;
      SkipWs();
      SkipTwice(input, start);
      SkipFirst(input, start);
      SkipValue(input, start);
      if pos == |input| {
        return Err(EINVAL);
      }
      var c := input[pos];
      if c == '"' {
        var x := Str();
        r := if x.Ok? then Ok(String(x.value), x.end) else Err(x.error);
      } else if c == '{' {
        r := AfterBrace();
      } else if c == '[' {
        r := AfterBracket();
      } else if c == 't' {
        var found := MatchWord("true");
        r := if found then Ok(Bool(true), pos) else Err(EINVAL);
      } else if c == 'f' {
        var found := MatchWord("false");
        r := if found then Ok(Bool(false), pos) else Err(EINVAL);
      } else if c == 'n' {
        var found := MatchWord("null");
        r := if found then Ok(Null, pos) else Err(EINVAL);
      } else if Digit(c) || c == '-' {
        var x := Num();
        r := if x.Ok? then Ok(Number(x.value), x.end) else Err(x.error);
      } else {
        r := Err(EINVAL);
      }
    }

    method AfterBracket() returns (r: Result<Value>)
      requires Valid() && pos < |input| && Skip(input, pos) == pos && input[pos] == '['
      modifies this
      ensures Valid() && r == ParseValue(input, old(pos)) && (r.Ok? ==> pos == r.end)
      decreases |input| - pos, 0
    {
      hide Items, Members;
      pos := pos + 1;
      ghost var start := pos;
      var empty := Match(']');
      if empty {
        return Ok(Array([]), pos);
      }
      ItemsSkip(input, start);
      var x := Arr();
      r := if x.Ok? then Ok(Array(x.value), x.end) else Err(x.error);
    }

    method AfterBrace() returns (r: Result<Value>)
      requires Valid() && pos < |input| && Skip(input, pos) == pos && input[pos] == '{'
      modifies this
      ensures Valid() && r == ParseValue(input, old(pos)) && (r.Ok? ==> pos == r.end)
      decreases |input| - pos, 0
    {
      hide Items, Members;
      pos := pos + 1;
      ghost var start := pos;
      var empty := Match('}');
      if empty {
        return Ok(Object([]), pos);
      }
      MembersSkip(input, start);
      var x := Obj();
      r := if x.Ok? then Ok(Object(x.value), x.end) else Err(x.error);
    }
  }

  lemma ItemsSkip(s: string, p: nat)
    requires p <= |s|
    ensures Items(s, Skip(s, p), []) == Items(s, p, [])
  {
    hide *;
    SkipValue(s, p);
    ItemsUnfold(s, p);
    ItemsUnfold(s, Skip(s, p));
  }

  lemma ItemsUnfold(s: string, p: nat)
    requires p <= |s|
    ensures Items(s, p, []) == AfterItem(s, ParseValue(s, p))
  {
    hide ParseValue;
  }

  function AfterItem(s: string, v: Result<Value>): Result<seq<Value>>
    requires v.Ok? ==> v.end <= |s|
  {
    match v
    case Err(e) => Err(e)
    case Ok(x, q) =>
      if Next(s, q, ',') then Items(s, Skip(s, q) + 1, [] + [x])
      else if Next(s, q, ']') then Ok([] + [x], Skip(s, q) + 1)
      else Err(EINVAL)
  }

  lemma MembersSkip(s: string, p: nat)
    requires p <= |s|
    ensures Members(s, Skip(s, p), []) == Members(s, p, [])
  {
    hide *;
    SkipMember(s, p);
    MembersUnfold(s, p);
    MembersUnfold(s, Skip(s, p));
  }

  lemma MembersUnfold(s: string, p: nat)
    requires p <= |s|
    ensures Members(s, p, []) == AfterMember(s, ParseMember(s, p))
  {
    hide ParseMember;
  }

  function AfterMember(s: string, v: Result<Pair>): Result<seq<Pair>>
    requires v.Ok? ==> v.end <= |s|
  {
    match v
    case Err(e) => Err(e)
    case Ok(x, q) =>
      if Next(s, q, ',') then Members(s, Skip(s, q) + 1, [] + [x])
      else if Next(s, q, '}') then Ok([] + [x], Skip(s, q) + 1)
      else Err(EINVAL)
  }
}
