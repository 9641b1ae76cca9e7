/**
 A reference reading of HTML: documents are lists of segments, and the visible-byte projection
 of a rendered document is the text of its text segments, nothing more and nothing less.
 */
module HtmlDocument {

  import opened Bytes
  import opened HtmlText

  datatype Segment =
    | Text(text: Bytes)
    | Tag(closing: bool, name: Bytes, attrs: Bytes)
    | Comment(body: Bytes)
    | Element(name: Bytes, attrs: Bytes, content: Bytes)  // script or style with its content

  /** The quote an attribute list ends inside of (0 for none), or -1 if it closes the tag. */
  function QuoteAfter(attrs: Bytes): (q: int)
    ensures -1 <= q < 256
  {
    if attrs == [] then 0
    else
      var q, b := QuoteAfter(attrs[..|attrs| - 1]), attrs[|attrs| - 1];
      if q == -1 then -1
      else if q != 0 then (if b == q then 0 else q)
      else if b == DQUOTE || b == SQUOTE then b
      else if b == GT then -1
      else 0
  }

  predicate AttrsOk(attrs: Bytes)
  {
    attrs == [] || ((IsSpace(attrs[0]) || attrs[0] == SLASH) && QuoteAfter(attrs) == 0)
  }

  predicate NameOk(name: Bytes)
  {
    && name != [] && name[0] != BANG
    && forall i | 0 <= i < |name| ::
         !IsSpace(name[i]) && name[i] != DQUOTE && name[i] != SQUOTE && name[i] != GT && name[i] != SLASH
  }

  ghost predicate SegmentOk(s: Segment)
  {
    match s
    case Text(t) => LT !in t
    case Tag(closing, name, attrs) =>
      NameOk(name) && AttrsOk(attrs) && (closing || (Fold(name) != Script() && Fold(name) != Style()))
    case Comment(body) => GT !in body
    case Element(name, attrs, content) =>
      NameOk(name) && AttrsOk(attrs) && (Fold(name) == Script() || Fold(name) == Style())
      && NeverEnds(Needle(Fold(name)), content)
  }

  function OpenTag(closing: bool, name: Bytes, attrs: Bytes): Bytes
  {
    [LT] + (if closing then [SLASH] else []) + name + attrs + [GT]
  }

  function RenderSegment(s: Segment): Bytes
  {
    match s
    case Text(t) => t
    case Tag(closing, name, attrs) => OpenTag(closing, name, attrs)
    case Comment(body) => [LT, BANG] + body + [GT]
    case Element(name, attrs, content) => OpenTag(false, name, attrs) + content + Needle(name)
  }

  function Render(doc: seq<Segment>): Bytes
  {
    if doc == [] then [] else RenderSegment(doc[0]) + Render(doc[1..])
  }

  function TextOf(doc: seq<Segment>): Bytes
  {
    if doc == [] then [] else (if doc[0].Text? then doc[0].text else []) + TextOf(doc[1..])
  }

  // ---------------------------------------------------------------- one segment at a time

  lemma {:induction false} TextRun(t: Bytes)
    requires LT !in t
    ensures Run(Start, t) == Start && Visible(Start, t) == t
  {
    if t != [] {
      TextRun(t[..|t| - 1]);
    }
  }

  ghost predicate InTag(k: Tok)
  {
    k.inTag && k.skip == [] && k.comment == 0
  }

  lemma OneByte(k: Tok, b: byte)
    ensures Run(k, [b]) == Step(k, b) && Visible(k, [b]) == if Shows(k, b) then [b] else []
  {
  }

  lemma {:induction false} NameRun(k: Tok, name: Bytes)
    requires InTag(k) && k.quote == 0 && !k.tagNameDone && k.tagName == []
    requires name == [] || NameOk(name)
    ensures Run(k, name) == k.(tagName := Fold(name)) && Visible(k, name) == []
  {
    if name == [] {
    } else {
      var front, b := name[..|name| - 1], name[|name| - 1];
      SplitLast(name);
      NameRun(k, front);
      assert Fold(name) == Fold(front) + [Lower(b)];
    }
  }

  lemma {:induction false} AttrRun(k: Tok, attrs: Bytes)
    requires InTag(k) && k.quote == 0 && !k.tagNameDone && k.tagName != []
    requires attrs == [] || ((IsSpace(attrs[0]) || attrs[0] == SLASH) && QuoteAfter(attrs) >= 0)
    ensures Run(k, attrs) == k.(tagNameDone := attrs != [], quote := QuoteAfter(attrs)) && Visible(k, attrs) == []
  {
    if attrs != [] {
      var front, b := attrs[..|attrs| - 1], attrs[|attrs| - 1];
      AttrRun(k, front);
    }
  }

  lemma OpenTagRun(closing: bool, name: Bytes, attrs: Bytes)
    requires NameOk(name) && AttrsOk(attrs)
    ensures Run(Start, OpenTag(closing, name, attrs)) ==
      (if !closing && (Fold(name) == Script() || Fold(name) == Style()) then Start.(skip := Fold(name)) else Start)
    ensures Visible(Start, OpenTag(closing, name, attrs)) == []
  {
    hide Run, Visible;
    var k0 := Start.(inTag := true);
    OneByte(Start, LT);
    var slash := if closing then [SLASH] else [];
    var k1 := k0.(tagClosing := closing);
    assert Run(k0, slash) == k1 && Visible(k0, slash) == [] by {
      if closing {
        OneByte(k0, SLASH);
      } else {
        EmptyRun(k0);
      }
    }
    NameRun(k1, name);
    var k2 := k1.(tagName := Fold(name));
    AttrRun(k2, attrs);
    var k3 := k2.(tagNameDone := attrs != []);
    OneByte(k3, GT);
    VisibleConcat(Start, [LT], slash);
    VisibleConcat(Start, [LT] + slash, name);
    VisibleConcat(Start, [LT] + slash + name, attrs);
    VisibleConcat(Start, [LT] + slash + name + attrs, [GT]);
  }

  lemma EmptyRun(k: Tok)
    ensures Run(k, []) == k && Visible(k, []) == []
  {
  }

  lemma {:induction false} CommentRun(c: nat, body: Bytes)
    requires c > 0 && GT !in body
    ensures var k := Run(Start.(comment := c), body); k == Start.(comment := k.comment) && k.comment > 0
    ensures Visible(Start.(comment := c), body) == []
  {
    if body != [] {
      CommentRun(c, body[..|body| - 1]);
    }
  }

  lemma CommentSegment(body: Bytes)
    requires GT !in body
    ensures Run(Start, [LT, BANG] + body + [GT]) == Start && Visible(Start, [LT, BANG] + body + [GT]) == []
  {
    hide Run, Visible;
    OneByte(Start, LT);
    OneByte(Start.(inTag := true), BANG);
    assert [LT] + [BANG] == [LT, BANG];
    VisibleConcat(Start, [LT], [BANG]);
    CommentRun(1, body);
    VisibleConcat(Start, [LT, BANG], body);
    OneByte(Run(Start.(comment := 1), body), GT);
    VisibleConcat(Start, [LT, BANG] + body, [GT]);
  }

  /** Content followed by its closing needle ends skipping at the needle's last byte: no occurrence can straddle. */
  lemma ClosingNeedle(name: Bytes, content: Bytes, close: Bytes)
    requires name == Script() || name == Style()
    requires NeverEnds(Needle(name), content) && Fold(close) == Needle(name)
    ensures Run(Start.(skip := name), content + close) == Start && Visible(Start.(skip := name), content + close) == []
  {
    hide Run, Visible, Fold, IsSuffix, Step;
    var needle := Needle(name);
    var t := content + close;
    var front, b := t[..|t| - 1], t[|t| - 1];
    SplitLast(t);
    FoldConcat(content, close);
    SuffixOfConcat(Fold(content), needle);
    forall j | 0 <= j <= |front| ensures !NeedleEnds(needle, front[..j]) {
      if j <= |content| {
        assert front[..j] == content[..j];
      } else {
        assert front[..j] == content + close[..j - |content|];
        Straddle(name, content, close, j - |content|);
      }
    }
    SkipEndsAtNeedle(name, front, b);
  }

  lemma SuffixOfConcat(s: Bytes, u: Bytes)
    ensures IsSuffix(u, s + u)
  {
  }

  lemma Straddle(name: Bytes, content: Bytes, close: Bytes, i: nat)
    requires name == Script() || name == Style()
    requires Fold(close) == Needle(name) && 0 < i < |close|
    ensures !NeedleEnds(Needle(name), content + close[..i])
  {
    var needle := Needle(name);
    var t := Fold(content + close[..i]);
    assert t[|content|] == Lower(close[0]) == Fold(close)[0] == needle[0];
  }

  lemma SegmentRun(s: Segment)
    requires SegmentOk(s)
    ensures Run(Start, RenderSegment(s)) == Start
    ensures Visible(Start, RenderSegment(s)) == if s.Text? then s.text else []
  {
    match s
    case Text(t) => TextRun(t);
    case Tag(closing, name, attrs) => OpenTagRun(closing, name, attrs);
    case Comment(body) => CommentSegment(body);
    case Element(name, attrs, content) =>
      ElementSegment(name, attrs, content);
  }

  lemma ElementSegment(name: Bytes, attrs: Bytes, content: Bytes)
    requires SegmentOk(Element(name, attrs, content))
    ensures Run(Start, OpenTag(false, name, attrs) + content + Needle(name)) == Start
    ensures Visible(Start, OpenTag(false, name, attrs) + content + Needle(name)) == []
  {
    hide Run, Visible, NeverEnds;
    var open, close := OpenTag(false, name, attrs), Needle(name);
    OpenTagRun(false, name, attrs);
    ClosingNeedle(Fold(name), content, close);
    VisibleConcat(Start, open, content + close);
    assert open + (content + close) == open + content + close;
  }

  /** What a rendered document shows is the text of its text segments. */
  lemma {:induction false} VisibleOfRender(doc: seq<Segment>)
    requires forall i | 0 <= i < |doc| :: SegmentOk(doc[i])
    ensures Visible(Start, Render(doc)) == TextOf(doc) && Run(Start, Render(doc)) == Start
  {
    if doc != [] {
      SegmentRun(doc[0]);
      VisibleOfRender(doc[1..]);
      VisibleConcat(Start, RenderSegment(doc[0]), Render(doc[1..]));
    }
  }

  // ---------------------------------------------------------------- letter by letter

  /** White space, the two names and what ends them. */
  lemma Spellings(b: byte)
    ensures IsSpace(b) <==> b in Ascii(" \t\r\n") + [12]
    ensures Script() == Ascii("script") && Style() == Ascii("style")
    ensures Needle(Script()) == Ascii("</script>") && Needle(Style()) == Ascii("</style>")
  {
    var spaces := Ascii(" \t\r\n");
    assert spaces[0] == ' ' as int && spaces[1] == '\t' as int && spaces[2] == '\r' as int && spaces[3] == '\n' as int;
    var all := spaces + [12];
    assert all[0] == spaces[0] && all[1] == spaces[1] && all[2] == spaces[2] && all[3] == spaces[3] && all[4] == 12;
  }

  /** An attribute list of one quoted value: white space, a name, the value between quotes of either kind. */
  function Quoted(space: byte, quote: byte, value: Bytes): Bytes
  {
    [space] + Ascii("x=") + [quote] + value + [quote]
  }

  predicate Quote(b: byte)
  {
    b == '"' as int || b == '\'' as int
  }

  lemma {:induction false} InQuotes(front: Bytes, quote: byte, value: Bytes)
    requires Quote(quote) && QuoteAfter(front) == quote && quote !in value
    ensures QuoteAfter(front + value) == quote
  {
    if value == [] {
      assert front + value == front;
    } else {
      var n := |value| - 1;
      InQuotes(front, quote, value[..n]);
      assert (front + value)[..|front + value| - 1] == front + value[..n];
    }
  }

  lemma QuotedOk(space: byte, quote: byte, value: Bytes)
    requires space in Ascii(" \t\r\n") + [12] && Quote(quote) && quote !in value
    ensures AttrsOk(Quoted(space, quote, value))
  {
    hide Ascii;
    Spellings(space);
    var open: Bytes := [space, 'x' as int, '=' as int, quote];
    OpenQuote(space, quote);
    InQuotes(open, quote, value);
    var t := open + value;
    var all := t + [quote];
    assert all[..|all| - 1] == t;
    QuotedIs(space, quote, value);
  }

  lemma QuotedIs(space: byte, quote: byte, value: Bytes)
    ensures Quoted(space, quote, value) == [space, 'x' as int, '=' as int, quote] + value + [quote]
  {
    assert Ascii("x=") == ['x' as int, '=' as int];
  }

  lemma OpenQuote(space: byte, quote: byte)
    requires IsSpace(space) && Quote(quote)
    ensures QuoteAfter([space, 'x' as int, '=' as int, quote]) == quote
  {
    var a: Bytes := [space];
    var b: Bytes := [space, 'x' as int];
    var c: Bytes := [space, 'x' as int, '=' as int];
    var d: Bytes := [space, 'x' as int, '=' as int, quote];
    assert d[..3] == c && c[..2] == b && b[..1] == a && a[..0] == [];
    assert QuoteAfter(a) == 0 && QuoteAfter(b) == 0 && QuoteAfter(c) == 0;
  }

  lemma PlainName(name: Bytes, word: string)
    requires (word == "script" || word == "style") && Twins(name, Ascii(word))
    ensures Fold(name) == Ascii(word) && NameOk(name)
  {
    Spellings(0);
    FoldMeans(name, Ascii(word));
    assert Fold(Ascii(word)) == Ascii(word);
    forall i | 0 <= i < |name|
      ensures 97 <= Lower(name[i]) < 123
    {
      assert Fold(name)[i] == Ascii(word)[i];
    }
  }

  /**
   A script or style element, its name in any case, with a quoted attribute that may hold anything but its quote:
   nothing of it is shown up to its closing tag, and the text after that is.
   */
  lemma ScriptHides(word: string, name: Bytes, space: byte, quote: byte, value: Bytes, content: Bytes, close: Bytes, t: Bytes)
    requires (word == "script" || word == "style") && Twins(name, Ascii(word))
    requires space in Ascii(" \t\r\n") + [12] && Quote(quote) && quote !in value && '<' as int !in content && '<' as int !in t
    requires Twins(close, Ascii("</" + word + ">"))
    ensures Visible(Start, Ascii("<") + name + Quoted(space, quote, value) + Ascii(">") + content + close + t) == t
  {
    hide Visible, Run, Twins, Quoted, NameOk, AttrsOk, Fold, NeverEnds, Ascii, Needle;
    Spellings(0);
    PlainName(name, word);
    QuotedOk(space, quote, value);
    var attrs := Quoted(space, quote, value);
    var open := OpenTag(false, name, attrs);
    OpenTagRun(false, name, attrs);
    NoNeedle(Ascii(word), content);
    CloseFolds(word, close);
    ClosingNeedle(Ascii(word), content, close);
    TextRun(t);
    VisibleConcat(Start, open, content + close);
    VisibleConcat(Start, open + (content + close), t);
    Brackets(name, attrs);
    Regroup(open, content, close, t);
  }

  lemma Brackets(name: Bytes, attrs: Bytes)
    ensures OpenTag(false, name, attrs) == Ascii("<") + name + attrs + Ascii(">")
  {
    assert Ascii("<") == [LT] && Ascii(">") == [GT];
    assert [LT] + [] + name == [LT] + name;
  }

  lemma Regroup(a: Bytes, b: Bytes, c: Bytes, d: Bytes)
    ensures a + (b + c) + d == a + b + c + d
  {
  }

  lemma CloseFolds(word: string, close: Bytes)
    requires (word == "script" || word == "style") && Twins(close, Ascii("</" + word + ">"))
    ensures Fold(close) == Needle(Ascii(word))
  {
    hide Ascii, Twins;
    TagIs(word);
    FoldMeans(close, Ascii("</" + word + ">"));
  }

  lemma TagIs(word: string)
    requires word == "script" || word == "style"
    ensures var tag := Ascii("</" + word + ">"); tag == Needle(Ascii(word)) && Fold(tag) == tag
  {
    Spellings(0);
    if word == "script" {
      assert "</" + word + ">" == "</script>";
    } else {
      assert "</" + word + ">" == "</style>";
    }
  }

  lemma NoNeedle(name: Bytes, content: Bytes)
    requires '<' as int !in content
    ensures NeverEnds(Needle(name), content)
  {
    var needle := Needle(name);
    forall j | 0 <= j <= |content|
      ensures !NeedleEnds(needle, content[..j])
    {
      var t := Fold(content[..j]);
      if |needle| <= |t| {
        var k := |t| - |needle|;
        assert t[k] == Lower(content[k]) && t[k..][0] == t[k];
      }
    }
  }

  /** A comment or declaration shows nothing, whatever it holds, up to the first '>'. */
  lemma CommentHides(body: Bytes, t: Bytes)
    requires '>' as int !in body && '<' as int !in t
    ensures Visible(Start, Ascii("<!") + body + Ascii(">") + t) == t
  {
    hide Visible, Run;
    assert Ascii("<!") == [LT, BANG] && Ascii(">") == [GT];
    CommentSegment(body);
    TextRun(t);
    VisibleConcat(Start, [LT, BANG] + body + [GT], t);
  }

  /** Any other tag of letters, opening or closing, shows nothing of itself and hides nothing after it. */
  lemma TagHides(closing: bool, name: Bytes, t: Bytes)
    requires name != [] && (forall i | 0 <= i < |name| :: 'a' as int <= Lower(name[i]) <= 'z' as int) && '<' as int !in t
    requires closing || !(Twins(name, Ascii("script")) || Twins(name, Ascii("style")))
    ensures Visible(Start, (if closing then Ascii("</") else Ascii("<")) + name + Ascii(">") + t) == t
  {
    hide Visible, Run, Twins;
    Spellings(0);
    FoldMeans(name, Ascii("script"));
    FoldMeans(name, Ascii("style"));
    assert Fold(Ascii("script")) == Ascii("script") && Fold(Ascii("style")) == Ascii("style");
    LettersOk(name);
    OpenTagRun(closing, name, []);
    TextRun(t);
    var tag := OpenTag(closing, name, []);
    assert Ascii("</") == [LT, SLASH] && Ascii("<") == [LT] && Ascii(">") == [GT];
    assert tag == (if closing then [LT, SLASH] else [LT]) + name + [GT];
    VisibleConcat(Start, tag, t);
  }

  lemma LettersOk(name: Bytes)
    requires name != [] && forall i | 0 <= i < |name| :: 'a' as int <= Lower(name[i]) <= 'z' as int
    ensures NameOk(name)
  {
  }
}
