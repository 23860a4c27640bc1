/**
 * The request builder of kernel/core/agent/model_client.c: text appended at a moving
 * offset into a fixed buffer.  A body is reported only when all of it fits; parsing it
 * with the kernel's own parser gives the request back.
 */
module RequestBody {
  import opened Results
  import opened Json

  type U32 = n: nat | n < 0x1_0000_0000

  datatype ModelRequest = ModelRequest(model: string, maxTokens: U32, system: Option<string>, message: string)

  /** The document a request stands for. */
  function Document(r: ModelRequest): Value {
    Object([Pair("model", String(r.model)), Pair("max_tokens", Number(r.maxTokens))]
           + (if r.system.Some? then [Pair("system", String(r.system.value))] else [])
           + [Pair("messages", MessageValue(r.message))])
  }

  // The builder's fixed pieces.
  function OpenText(): string { "{\"model\":\"" }
  function TokensText(): string { "\",\"max_tokens\":" }
  function SystemText(): string { ",\"system\":\"" }
  function QuoteText(): string { "\"" }
  function MessagesText(): string { ",\"messages\":[{\"role\":\"user\",\"content\":\"" }
  function EndText(): string { "\"}]}" }

  /** The text the builder writes, given room, piece by piece. */
  function Body(r: ModelRequest): string {
    OpenText() + (Escape(r.model) + (TokensText() + (PrintNat(r.maxTokens) + AfterTokens(r))))
  }

  function AfterTokens(r: ModelRequest): string {
    if r.system.None? then Messages(r)
    else SystemText() + (Escape(r.system.value) + (QuoteText() + Messages(r)))
  }

  function Messages(r: ModelRequest): string {
    MessagesText() + (Escape(r.message) + EndText())
  }

  // ----- the pieces are those of the printed document -----

  predicate Plain(x: string) {
    forall i | 0 <= i < |x| :: x[i] !in {'"', '\\', '\n', '\r', '\t'}
  }

  lemma {:induction false} EscapePlain(x: string)
    requires Plain(x)
    ensures Escape(x) == x
  {
    if x != "" {
      EscapePlain(x[1..]);
      assert x == [x[0]] + x[1..];
    }
  }

  function Key(k: string): string { "\"" + k + "\"" + ":" }

  lemma KeyPrinted(k: string)
    requires Plain(k)
    ensures Quoted(k) + ":" == Key(k)
  {
    EscapePlain(k);
  }

  lemma Pieces()
    ensures OpenText() == "{" + (Key("model") + QuoteText())
    ensures TokensText() == QuoteText() + ("," + Key("max_tokens"))
    ensures SystemText() == "," + (Key("system") + QuoteText())
    ensures EndText() == QuoteText() + ("}" + ("]" + "}"))
  {
  }

  lemma UserPieces()
    ensures "\"user\"" + ("," + (Key("content") + QuoteText())) == "\"user\",\"content\":\""
  {
  }

  lemma RolePieces(tail: string)
    ensures "[" + ("{" + (Key("role") + tail)) == "[{\"role\":" + tail
  {
  }

  lemma MessagesKey()
    ensures Key("messages") == "\"messages\":"
  {
  }

  lemma MessagesPieces()
    ensures MessagesText() == "," + (Key("messages")
        + ("[" + ("{" + (Key("role") + ("\"user\"" + ("," + (Key("content") + QuoteText())))))))
  {
    hide Key, QuoteText;
    UserPieces();
    RolePieces("\"user\",\"content\":\"");
    MessagesKey();
  }

  /** A text member, its quotes joined to their neighbours. */
  lemma TextMember(k: string, q: string, e: string, tail: string)
    ensures k + (q + e + q) + tail == (k + q) + (e + (q + tail))
  {
  }

  lemma PrintMembersCons(p: Pair, rest: seq<Pair>)
    ensures PrintMembers([p] + rest)
         == Quoted(p.key) + ":" + Print(p.value) + (if rest == [] then "}" else "," + PrintMembers(rest))
  {
    assert ([p] + rest)[1..] == rest;
  }

  lemma OneItem(v: Value)
    ensures Print(Array([v])) == "[" + (Print(v) + "]")
  {
  }

  lemma ShowObject(pairs: seq<Pair>)
    requires pairs != []
    ensures Print(Object(pairs)) == "{" + PrintMembers(pairs)
  {
  }

  lemma ShowString(x: string)
    ensures Print(String(x)) == QuoteText() + Escape(x) + QuoteText()
  {
  }

  function MessageValue(message: string): Value {
    Array([Object([Pair("role", String("user"))] + [Pair("content", String(message))])])
  }

  lemma MessagePrinted(message: string)
    ensures Print(MessageValue(message))
         == "[" + (("{" + (Key("role") + "\"user\""
           + ("," + (Key("content") + (QuoteText() + Escape(message) + QuoteText()) + "}")))) + "]")
  {
    hide Escape, Quoted, PrintMembers, PrintItems, Print, Key, QuoteText;
    var role, content := Pair("role", String("user")), Pair("content", String(message));
    PrintMembersCons(content, []);
    PrintMembersCons(role, [content]);
    assert [content] + [] == [content];
    KeyPrinted("role");
    KeyPrinted("content");
    ShowString(message);
    UserPrinted();
    ShowObject([role] + [content]);
    OneItem(Object([role] + [content]));
  }

  lemma UserPrinted()
    ensures Print(String("user")) == "\"user\""
  {
    EscapePlain("user");
  }

  lemma RegroupMessage(m: string, r: string, u: string, c: string, q: string, e: string)
    ensures "," + (m + ("[" + (("{" + (r + u + ("," + (c + (q + e + q) + "}")))) + "]")) + "}")
         == ("," + (m + ("[" + ("{" + (r + (u + ("," + (c + q)))))))) + (e + (q + ("}" + ("]" + "}"))))
  {
    TextMember(c, q, e, "}");
    var x := (c + q) + (e + (q + "}"));
    var h := r + (u + ("," + (c + q)));
    assert r + u + ("," + x) == h + (e + (q + "}"));
    var t := e + (q + "}");
    var t3 := e + (q + ("}" + ("]" + "}")));
    assert t + "]" + "}" == t3;
    var p := "[" + ("{" + h);
    assert "[" + (("{" + (h + t)) + "]") == p + (t + "]");
    assert m + (p + (t + "]")) + "}" == (m + p) + (t + "]" + "}");
    assert "," + ((m + p) + t3) == ("," + (m + p)) + t3;
  }

  lemma MessagesPrinted(r: ModelRequest)
    ensures "," + PrintMembers([Pair("messages", MessageValue(r.message))]) == Messages(r)
  {
    hide Escape, Quoted, PrintMembers, Print, Key, QuoteText, MessagesText, EndText;
    var p := Pair("messages", MessageValue(r.message));
    PrintMembersCons(p, []);
    assert [p] + [] == [p];
    KeyPrinted("messages");
    MessagePrinted(r.message);
    MessagesPieces();
    Pieces();
    RegroupMessage(Key("messages"), Key("role"), "\"user\"", Key("content"), QuoteText(), Escape(r.message));
  }

  lemma AfterTokensPrinted(r: ModelRequest, pairs: seq<Pair>)
    requires pairs == (if r.system.Some? then [Pair("system", String(r.system.value))] else [])
                      + [Pair("messages", MessageValue(r.message))]
    ensures "," + PrintMembers(pairs) == AfterTokens(r)
  {
    hide Escape, Quoted, PrintMembers, Print, Key, QuoteText, SystemText, Messages;
    var last := [Pair("messages", MessageValue(r.message))];
    MessagesPrinted(r);
    if r.system.None? {
      assert pairs == last;
    } else {
      var p := Pair("system", String(r.system.value));
      assert pairs == [p] + last;
      PrintMembersCons(p, last);
      KeyPrinted("system");
      ShowString(r.system.value);
      Pieces();
      TextMember(Key("system"), QuoteText(), Escape(r.system.value), Messages(r));
      RegroupHead(",", Key("system") + QuoteText(), Escape(r.system.value) + (QuoteText() + Messages(r)));
    }
  }

  lemma RegroupHead(a: string, b: string, c: string)
    ensures a + (b + c) == (a + b) + c
  {
  }

  lemma RegroupBody(k: string, q: string, e: string, t: string, n: string, a: string)
    ensures "{" + (k + (q + e + q) + ("," + (t + n + a)))
         == ("{" + (k + q)) + (e + ((q + ("," + t)) + (n + a)))
  {
    TextMember(k, q, e, "," + (t + n + a));
    assert q + ("," + (t + n + a)) == (q + ("," + t)) + (n + a);
    RegroupHead("{", k + q, e + ((q + ("," + t)) + (n + a)));
  }

  /** The builder's text is the printed document. */
  lemma BodyIsPrinted(r: ModelRequest)
    ensures Body(r) == Print(Document(r))
  {
    hide Escape, Quoted, PrintMembers, Print, Key, QuoteText, OpenText, TokensText, AfterTokens, PrintNat;
    var p3 := (if r.system.Some? then [Pair("system", String(r.system.value))] else [])
              + [Pair("messages", MessageValue(r.message))];
    AfterTokensPrinted(r, p3);
    var p2, p1 := Pair("max_tokens", Number(r.maxTokens)), Pair("model", String(r.model));
    PrintMembersCons(p2, p3);
    PrintMembersCons(p1, [p2] + p3);
    KeyPrinted("model");
    KeyPrinted("max_tokens");
    ShowString(r.model);
    ShowNumber(r.maxTokens);
    Pieces();
    assert Document(r) == Object([p1] + ([p2] + p3));
    ShowObject([p1] + ([p2] + p3));
    RegroupBody(Key("model"), QuoteText(), Escape(r.model), Key("max_tokens"), PrintNat(r.maxTokens), AfterTokens(r));
  }

  lemma ShowNumber(n: nat)
    ensures Print(Number(n)) == PrintNat(n)
  {
  }

  lemma DocumentHoldable(r: ModelRequest)
    ensures Holdable(Document(r))
  {
    var inner := Object([Pair("role", String("user"))] + [Pair("content", String(r.message))]);
    assert Holdable(inner);
    assert Holdable(MessageValue(r.message));
    var pairs := Document(r).pairs;
    forall i | 0 <= i < |pairs| ensures Holdable(pairs[i].value) {
      assert pairs[i].value.String? || pairs[i].value.Number? || pairs[i].value == MessageValue(r.message);
    }
  }

  /** Builder and parser are inverse. */
  lemma BodyParsesBack(r: ModelRequest)
    ensures ParseValue(Body(r), 0) == Ok(Document(r), |Body(r)|)
  {
    hide *;
    BodyIsPrinted(r);
    DocumentHoldable(r);
    RoundTrip(Document(r));
  }

  // ----- the buffer -----

  /**
   * The buffer up to `off` holds `text`, or the text is already too long and the offset
   * has come within two of the end, where no success is reported any more.
   */
  ghost predicate Tracks(buf: seq<char>, off: nat, text: string) {
    || (off == |text| && off <= |buf| - 1 && buf[..off] == text)
    || (|buf| - 2 <= off <= |buf| - 1 && |text| >= |buf| - 1)
  }

  /** `str_append`: copy until the text ends or one byte is left. */
  method StrAppend(buf: array<char>, off: nat, s: string, ghost text: string) returns (end: nat)
    requires buf.Length >= 2 && Tracks(buf[..], off, text)
    modifies buf
    ensures Tracks(buf[..], end, text + s)
    ensures s != "" ==> (end == |text + s| && buf[..][..end] == text + s) || end == buf.Length - 1
  {
    end := off;
    var k := 0;
    while k < |s| && end < buf.Length - 1
      invariant 0 <= k <= |s| && end == off + k <= buf.Length - 1
      invariant Tracks(buf[..], end, text + s[..k])
      invariant k > 0 || Tracks(buf[..], off, text)
      invariant off == |text| && old(buf[..off]) == text ==> buf[..end] == text + s[..k]
    {
      buf[end] := s[k];
      assert s[..k + 1] == s[..k] + [s[k]];
      end := end + 1;
      k := k + 1;
    }
    assert s[..|s|] == s;
  }

  lemma {:induction false} EscapeAppendOne(x: string, c: char)
    ensures Escape(x + [c]) == Escape(x) + EscapeChar(c)
  {
    if x == "" {
      assert x + [c] == [c] && [c][1..] == "";
    } else {
      assert (x + [c])[1..] == x[1..] + [c];
      EscapeAppendOne(x[1..], c);
    }
  }

  lemma EscapeEmpty()
    ensures Escape("") == ""
  {
  }

  lemma {:induction false} EscapeGrows(x: string, k: nat)
    requires k < |x|
    ensures |Escape(x[..k])| < |Escape(x)|
    decreases |x|
  {
    if k == 0 {
      assert Escape(x[..0]) == "";
    } else {
      assert x[..k][1..] == x[1..][..k - 1];
      EscapeGrows(x[1..], k - 1);
    }
  }

  method EscapeOne(buf: array<char>, off: nat, c: char) returns (end: nat)
    requires off + 2 < buf.Length
    modifies buf
    ensures end == off + |EscapeChar(c)| < buf.Length && buf[..end] == old(buf[..off]) + EscapeChar(c)
  {
    if c == '"' || c == '\\' || c == '\n' || c == '\r' || c == '\t' {
      buf[off] := '\\';
      buf[off + 1] := if c == '\n' then 'n' else if c == '\r' then 'r' else if c == '\t' then 't' else c;
      end := off + 2;
    } else {
      buf[off] := c;
      end := off + 1;
    }
  }

  /** `json_escape_append`: stop while an escaped character still fits. */
  method EscapeAppend(buf: array<char>, off: nat, s: string, ghost text: string) returns (end: nat)
    requires buf.Length >= 2 && Tracks(buf[..], off, text)
    modifies buf
    ensures Tracks(buf[..], end, text + Escape(s))
  {
    hide Escape, EscapeChar;
    EscapeEmpty();
    end := off;
    var k := 0;
    assert s[..0] == "";
    ghost var exact := off == |text| && buf[..off] == text;
    while k < |s| && end < buf.Length - 2
      invariant 0 <= k <= |s| && off <= end <= buf.Length - 1
      invariant exact ==> end == |text| + |Escape(s[..k])| && buf[..end] == text + Escape(s[..k])
      invariant !exact ==> end == off && |text| >= buf.Length - 1 && buf.Length - 2 <= end
    {
      var c := s[k];
      assert s[..k + 1] == s[..k] + [c];
      EscapeAppendOne(s[..k], c);
      end := EscapeOne(buf, end, c);
      k := k + 1;
    }
    if k < |s| {
      EscapeGrows(s, k);
    } else {
      assert s[..k] == s;
    }
  }

  function Reversed(x: string): (r: string)
    ensures |r| == |x|
    ensures forall i | 0 <= i < |x| :: r[i] == x[|x| - 1 - i]
  {
    seq(|x|, i requires 0 <= i < |x| => x[|x| - 1 - i])
  }

  /** What is left of a 32-bit number after `k` divisions by ten is below this. */
  function Remains(k: nat): nat {
    if k == 0 then 0x1_0000_0000 else Remains(k - 1) / 10 + 1
  }

  lemma TenDigits()
    ensures Remains(10) == 1
  {
    assert Remains(2) == 42949674;
    assert Remains(4) == 429497;
    assert Remains(6) == 4296;
    assert Remains(8) == 44;
  }

  lemma DigitsLeft(k: nat, val: nat)
    requires k <= 10 && 0 < val < Remains(k)
    ensures k < 10 && val / 10 < Remains(k + 1)
  {
    TenDigits();
  }

  /** The digits of a 32-bit number, last one first, in at most 11 places. */
  method CollectDigits(n: nat) returns (tmp: string)
    requires n < 0x1_0000_0000
    ensures Reversed(tmp) == PrintNat(n)
  {
    if n == 0 {
      return "0";
    }
    hide Reversed, PrintNat, Remains;
    NoDigits(n);
    tmp := "";
    var val: nat := n;
    while val > 0 && |tmp| < 11
      invariant |tmp| <= 10 && val < Remains(|tmp|)
      invariant PrintNat(n) == (if val == 0 then "" else PrintNat(val)) + Reversed(tmp)
      decreases val
    {
      DigitsLeft(|tmp|, val);
      DigitStep(val, tmp);
      tmp := tmp + [DigitChar(val % 10)];
      val := val / 10;
    }
    assert "" + Reversed(tmp) == Reversed(tmp);
  }

  lemma NoDigits(n: nat)
    ensures PrintNat(n) + Reversed("") == PrintNat(n) && Remains(0) == 0x1_0000_0000
  {
  }

  lemma DigitStep(val: nat, tmp: string)
    requires val > 0
    ensures PrintNat(val) + Reversed(tmp)
         == (if val / 10 == 0 then "" else PrintNat(val / 10)) + Reversed(tmp + [DigitChar(val % 10)])
  {
    var d := [DigitChar(val % 10)];
    assert Reversed(tmp + d) == d + Reversed(tmp);
    if val >= 10 {
      assert PrintNat(val) == PrintNat(val / 10) + d;
      assert (PrintNat(val / 10) + d) + Reversed(tmp) == PrintNat(val / 10) + (d + Reversed(tmp));
    }
  }

  /** Copy backwards until done or one byte is left. */
  method CopyBackwards(buf: array<char>, off: nat, tmp: string, ghost text: string) returns (end: nat)
    requires buf.Length >= 2 && Tracks(buf[..], off, text)
    modifies buf
    ensures Tracks(buf[..], end, text + Reversed(tmp))
  {
    ghost var digits := Reversed(tmp);
    hide Reversed;
    end := off;
    var i := |tmp|;
    ghost var exact := off == |text| && buf[..off] == text;
    while i > 0 && end < buf.Length - 1
      invariant 0 <= i <= |tmp| && end == off + (|tmp| - i) <= buf.Length - 1
      invariant exact ==> buf[..end] == text + digits[..|tmp| - i]
      invariant !exact ==> |text| >= buf.Length - 1 && buf.Length - 2 <= off
    {
      i := i - 1;
      buf[end] := tmp[i];
      assert digits[..|tmp| - i] == digits[..|tmp| - i - 1] + [tmp[i]];
      end := end + 1;
    }
    assert digits[..|tmp|] == digits;
  }

  /** `int_append`: digits collected backwards, then copied in order. */
  method IntAppend(buf: array<char>, off: nat, n: nat, ghost text: string) returns (end: nat)
    requires buf.Length >= 2 && Tracks(buf[..], off, text) && n < 0x1_0000_0000
    modifies buf
    ensures Tracks(buf[..], end, text + PrintNat(n))
  {
    var tmp := CollectDigits(n);
    end := CopyBackwards(buf, off, tmp, text);
  }

  /**
   * `build_request_body`: succeeds exactly when the whole body and a terminator fit with a
   * byte to spare, and then the buffer holds exactly the body.
   */
  method BuildRequestBody(r: ModelRequest, buf: array<char>) returns (len: int)
    requires buf.Length >= 2
    modifies buf
    ensures len >= 0 <==> |Body(r)| <= buf.Length - 2
    ensures len >= 0 ==> len == |Body(r)| && buf[..len] == Body(r) && buf[len] == '\0'
    ensures len < 0 ==> len == -1
  {
    hide Escape, PrintNat, OpenText, TokensText, SystemText, QuoteText, MessagesText, EndText;
    ghost var text := "";
    assert buf[..0] == "";
    var off := StrAppend(buf, 0, OpenText(), text);
    text := text + OpenText();
    off := EscapeAppend(buf, off, r.model, text);
    text := text + Escape(r.model);
    off := StrAppend(buf, off, TokensText(), text);
    text := text + TokensText();
    off := IntAppend(buf, off, r.maxTokens, text);
    text := text + PrintNat(r.maxTokens);
    assert text + AfterTokens(r) == Body(r) by {
      BodyPrefix(r, text);
    }
    ghost var head := text;
    if r.system.Some? {
      off := StrAppend(buf, off, SystemText(), text);
      text := text + SystemText();
      off := EscapeAppend(buf, off, r.system.value, text);
      text := text + Escape(r.system.value);
      off := StrAppend(buf, off, QuoteText(), text);
      text := text + QuoteText();
      SystemPrefix(head, r, text);
    }
    off := StrAppend(buf, off, MessagesText(), text);
    ghost var beforeMessages := text;
    text := text + MessagesText();
    off := EscapeAppend(buf, off, r.message, text);
    text := text + Escape(r.message);
    off := StrAppend(buf, off, EndText(), text);
    MessagesPrefix(beforeMessages, r, text + EndText());
    EndNotEmpty();
    if off >= buf.Length - 1 {
      return -1;
    }
    buf[off] := '\0';
    len := off;
  }

  lemma EndNotEmpty()
    ensures EndText() != ""
  {
  }

  lemma BodyPrefix(r: ModelRequest, text: string)
    requires text == "" + OpenText() + Escape(r.model) + TokensText() + PrintNat(r.maxTokens)
    ensures text + AfterTokens(r) == Body(r)
  {
    hide Escape, PrintNat, OpenText, TokensText, AfterTokens;
    var o, e, t, n, a := OpenText(), Escape(r.model), TokensText(), PrintNat(r.maxTokens), AfterTokens(r);
    assert "" + o == o;
    assert o + e + t + n + a == o + e + t + (n + a);
    assert o + e + t + (n + a) == o + e + (t + (n + a));
    assert o + e + (t + (n + a)) == o + (e + (t + (n + a)));
  }

  lemma SystemPrefix(head: string, r: ModelRequest, text: string)
    requires r.system.Some? && text == head + SystemText() + Escape(r.system.value) + QuoteText()
    ensures text + Messages(r) == head + AfterTokens(r)
  {
    hide Escape, SystemText, QuoteText, Messages;
    var s, e, q, m := SystemText(), Escape(r.system.value), QuoteText(), Messages(r);
    assert head + s + e + q + m == head + s + e + (q + m);
    assert head + s + e + (q + m) == head + s + (e + (q + m));
    assert head + s + (e + (q + m)) == head + (s + (e + (q + m)));
  }

  lemma MessagesPrefix(head: string, r: ModelRequest, text: string)
    requires text == head + MessagesText() + Escape(r.message) + EndText()
    ensures text == head + Messages(r)
  {
    hide Escape, MessagesText, EndText;
    var m, e, x := MessagesText(), Escape(r.message), EndText();
    assert head + m + e + x == head + m + (e + x);
    assert head + m + (e + x) == head + (m + (e + x));
  }
}
