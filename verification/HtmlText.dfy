/**
 The HTML visible-text filter: a byte-level tokenizer in front of a phrase stream, so that
 phrases are looked for in the text a reader sees and not in markup, comments or scripts.
 */
module HtmlText {

  import opened Bytes
  import opened PhraseAutomaton
  import opened PhraseStreams

  const LT := '<' as int
  const GT := '>' as int
  const SLASH := '/' as int
  const BANG := '!' as int
  const DASH := '-' as int
  const DQUOTE := '"' as int
  const SQUOTE := '\'' as int

  predicate IsSpace(b: byte)
  {
    b == ' ' as int || b == '\t' as int || b == '\r' as int || b == '\n' as int || b == 12
  }

  // ---------------------------------------------------------------- tokenizer states

  /** The tokenizer's fields; quote 0 means outside quotes, skip [] means nothing is skipped. */
  datatype Tok = Tok(inTag: bool, tagClosing: bool, tagName: Bytes, tagNameDone: bool,
                     quote: byte, comment: nat, skip: Bytes, closeMatch: nat)

  const Start := Tok(false, false, [], false, 0, 0, [], 0)

  function Script(): Bytes { ['s' as int, 'c' as int, 'r' as int, 'i' as int, 'p' as int, 't' as int] }

  function Style(): Bytes { ['s' as int, 't' as int, 'y' as int, 'l' as int, 'e' as int] }

  function Needle(name: Bytes): (r: Bytes)
    ensures |r| == |name| + 3 && r[0] == LT
  {
    [LT, SLASH] + name + [GT]
  }

  function FinishTag(k: Tok): Tok
  {
    var skips := !k.tagClosing && (k.tagName == Script() || k.tagName == Style());
    Tok(false, false, [], false, 0, k.comment, if skips then k.tagName else k.skip, if skips then 0 else k.closeMatch)
  }

  function TagStep(k: Tok, b: byte): Tok
  {
    if k.quote != 0 then (if b == k.quote then k.(quote := 0) else k)
    else if b == DQUOTE || b == SQUOTE then k.(quote := b)
    else if k.tagName == [] && !k.tagClosing && b == BANG then k.(comment := 1, inTag := false)
    else if k.tagName == [] && b == SLASH then k.(tagClosing := true)
    else if b == GT then FinishTag(k)
    else if IsSpace(b) || b == SLASH then k.(tagNameDone := true)
    else if !k.tagNameDone then k.(tagName := k.tagName + [Lower(b)])
    else k
  }

  function CommentStep(c: nat, b: byte): nat
  {
    if b == GT then 0
    else if b == DASH && 1 <= c <= 3 then (if c == 3 then 3 else c + 1)
    else 1
  }

  function SkipStep(k: Tok, b: byte): Tok
  {
    var needle := Needle(k.skip);
    if k.closeMatch < |needle| && Lower(b) == needle[k.closeMatch] then
      if k.closeMatch + 1 == |needle| then k.(skip := [], closeMatch := 0) else k.(closeMatch := k.closeMatch + 1)
    else if Lower(b) == LT then k.(closeMatch := 1)
    else k.(closeMatch := 0)
  }

  function Step(k: Tok, b: byte): Tok
  {
    if k.skip != [] then SkipStep(k, b)
    else if k.comment > 0 then k.(comment := CommentStep(k.comment, b))
    else if k.inTag then TagStep(k, b)
    else if b == LT then Tok(true, false, [], false, 0, k.comment, k.skip, k.closeMatch)
    else k
  }

  /** The byte is text a reader sees. */
  predicate Shows(k: Tok, b: byte)
  {
    k.skip == [] && k.comment == 0 && !k.inTag && b != LT
  }

  function Run(k: Tok, raw: Bytes): Tok
  {
    if raw == [] then k else Step(Run(k, raw[..|raw| - 1]), raw[|raw| - 1])
  }

  /** The visible-byte projection of raw, read from state k. */
  function Visible(k: Tok, raw: Bytes): (r: Bytes)
  {
    if raw == [] then []
    else
      var front, b := raw[..|raw| - 1], raw[|raw| - 1];
      Visible(k, front) + (if Shows(Run(k, front), b) then [b] else [])
  }

  lemma VisibleSnoc(k: Tok, raw: Bytes, b: byte)
    ensures Run(k, raw + [b]) == Step(Run(k, raw), b)
    ensures Visible(k, raw + [b]) == Visible(k, raw) + (if Shows(Run(k, raw), b) then [b] else [])
  {
  }

  lemma {:induction false} VisibleConcat(k: Tok, a: Bytes, b: Bytes)
    ensures Run(k, a + b) == Run(Run(k, a), b)
    ensures Visible(k, a + b) == Visible(k, a) + Visible(Run(k, a), b)
  {
    if b == [] {
      assert a + b == a;
    } else {
      var front, c := b[..|b| - 1], b[|b| - 1];
      assert a + b == (a + front) + [c];
      VisibleSnoc(k, a + front, c);
      VisibleConcat(k, a, front);
    }
  }

  // ---------------------------------------------------------------- script and style

  /** k is the length of the longest prefix of needle that ends where t ends. */
  ghost predicate LongestMatch(needle: Bytes, t: Bytes, k: nat)
  {
    && k <= |needle| && IsSuffix(needle[..k], t)
    && forall m | k < m <= |needle| :: !IsSuffix(needle[..m], t)
  }

  /** The first byte of the needle occurs nowhere else in it. */
  ghost predicate LoneHead(needle: Bytes)
  {
    needle != [] && forall i | 0 < i < |needle| :: needle[i] != needle[0]
  }

  lemma SuffixSnoc(u: Bytes, t: Bytes, x: byte)
    requires u != []
    ensures IsSuffix(u, t + [x]) <==> u[|u| - 1] == x && IsSuffix(u[..|u| - 1], t)
  {
  }

  lemma PrefixSnocSuffix(needle: Bytes, m: nat, t: Bytes, x: byte)
    requires 0 < m <= |needle|
    ensures IsSuffix(needle[..m], t + [x]) <==> needle[m - 1] == x && IsSuffix(needle[..m - 1], t)
  {
    SuffixSnoc(needle[..m], t, x);
  }

  /** Falling back to 0 or 1 loses nothing when the needle's head is alone in it. */
  lemma OneStepFallback(needle: Bytes, t: Bytes, k: nat, x: byte)
    requires LoneHead(needle) && LongestMatch(needle, t, k) && k < |needle|
    ensures LongestMatch(needle, t + [x],
      if x == needle[k] then k + 1 else if x == needle[0] then 1 else 0)
  {
    var k' := if x == needle[k] then k + 1 else if x == needle[0] then 1 else 0;
    forall m | k' < m <= |needle| ensures !IsSuffix(needle[..m], t + [x]) {
      PrefixSnocSuffix(needle, m, t, x);
      if 1 < m <= k {
        ShorterMatchHead(needle, t, m - 1, k);
      }
    }
  }

  /** A shorter and a longer match cannot both end here: the head would occur twice. */
  lemma ShorterMatchHead(needle: Bytes, t: Bytes, j: nat, k: nat)
    requires LoneHead(needle) && 0 < j < k <= |needle| && IsSuffix(needle[..k], t)
    ensures !IsSuffix(needle[..j], t)
  {
    assert t[|t| - j] == t[|t| - k..][k - j] == needle[k - j];
  }

  ghost predicate NeedleEnds(needle: Bytes, content: Bytes)
  {
    IsSuffix(needle, Fold(content))
  }

  ghost predicate NeverEnds(needle: Bytes, content: Bytes)
  {
    forall j | 0 <= j <= |content| :: !NeedleEnds(needle, content[..j])
  }

  /** One byte of skipped content in state k, with the needle partly matched. */
  lemma SkipByte(name: Bytes, content: Bytes, m: nat, b: byte)
    requires name == Script() || name == Style()
    requires m < |Needle(name)| && LongestMatch(Needle(name), Fold(content), m)
    ensures var k := Step(Start.(skip := name, closeMatch := m), b);
      if NeedleEnds(Needle(name), content + [b]) then k == Start
      else
        && k == Start.(skip := name, closeMatch := k.closeMatch) && k.closeMatch < |Needle(name)|
        && LongestMatch(Needle(name), Fold(content + [b]), k.closeMatch)
  {
    var needle := Needle(name);
    FoldSnoc(content, b);
    NeedleHead(name);
    OneStepFallback(needle, Fold(content), m, Lower(b));
    assert needle[..|needle|] == needle;
  }

  lemma NeedleHead(name: Bytes)
    requires name == Script() || name == Style()
    ensures LoneHead(Needle(name))
  {
  }

  /**
   Script or style content: as long as the closing needle has not occurred in it (case-folded)
   the filter keeps skipping and shows nothing, and the matcher holds the longest partial match.
   */
  lemma {:induction false} SkipIsSearch(name: Bytes, content: Bytes)
    requires name == Script() || name == Style()
    requires NeverEnds(Needle(name), content)
    ensures var k := Run(Start.(skip := name), content);
      && k == Start.(skip := name, closeMatch := k.closeMatch)
      && k.closeMatch < |Needle(name)| && LongestMatch(Needle(name), Fold(content), k.closeMatch)
    ensures Visible(Start.(skip := name), content) == []
  {
    var k := Start.(skip := name);
    if content == [] {
    } else {
      var front, b := content[..|content| - 1], content[|content| - 1];
      SplitLast(content);
      assert forall j | 0 <= j <= |front| :: front[..j] == content[..j];
      SkipIsSearch(name, front);
      VisibleSnoc(k, front, b);
      SkipByte(name, front, Run(k, front).closeMatch, b);
      assert content[..|content|] == content;
    }
  }

  /** The byte that completes the first occurrence of the needle ends the skipping, and no earlier one does. */
  lemma SkipEndsAtNeedle(name: Bytes, content: Bytes, b: byte)
    requires name == Script() || name == Style()
    requires NeverEnds(Needle(name), content)
    ensures Run(Start.(skip := name), content + [b]).skip == [] <==> NeedleEnds(Needle(name), content + [b])
    ensures NeedleEnds(Needle(name), content + [b]) ==> Run(Start.(skip := name), content + [b]) == Start
    ensures Visible(Start.(skip := name), content + [b]) == []
  {
    hide Run, Visible, LongestMatch, NeverEnds, NeedleEnds;
    var k := Start.(skip := name);
    SkipIsSearch(name, content);
    VisibleSnoc(k, content, b);
    SkipByte(name, content, Run(k, content).closeMatch, b);
  }

  // ---------------------------------------------------------------- blocking

  /** Byte i - 1 of s is visible and is the byte at which the phrase filter blocks the visible text of s. */
  ghost predicate BlocksAt(es: seq<Entry>, threshold: int, s: Bytes, i: int)
  {
    && 0 < i <= |s| && Shows(Run(Start, s[..i - 1]), s[i - 1])
    && FirstBlock32(es, threshold, Visible(Start, s), |Visible(Start, s[..i])|)
  }

  lemma BlocksAtSnoc(es: seq<Entry>, threshold: int, s: Bytes, b: byte, rest: Bytes)
    requires Shows(Run(Start, s), b)
    requires FirstBlock32(es, threshold, Visible(Start, s) + [b], |Visible(Start, s)| + 1)
    ensures BlocksAt(es, threshold, s + [b] + rest, |s| + 1)
  {
    var t := s + [b] + rest;
    assert t[..|s|] == s && t[..|s| + 1] == s + [b];
    VisibleConcat(Start, s + [b], rest);
    FirstBlockExtends(es, threshold, Visible(Start, s + [b]), Visible(Run(Start, s + [b]), rest), |Visible(Start, s)| + 1);
  }

  class HtmlTextFilter {
    const inner: PhraseStream
    var inTag: bool
    var tagClosing: bool
    var tagName: Bytes
    var tagNameDone: bool
    var quote: byte
    var comment: nat
    var skip: Bytes
    var closeMatch: nat
    ghost var raw: Bytes  // everything read so far

    ghost function State(): Tok
      reads this
    {
      Tok(inTag, tagClosing, tagName, tagNameDone, quote, comment, skip, closeMatch)
    }

    ghost predicate Valid()
      reads this, inner
    {
      && inner.Valid() && inner.text == Visible(Start, raw)
      && State() == Run(Start, raw)
    }

    constructor (inner: PhraseStream)
      requires inner.Valid() && inner.text == []
      ensures Valid() && raw == [] && this.inner == inner
    {
      this.inner := inner;
      inTag, tagClosing, tagName, tagNameDone := false, false, [], false;
      quote, comment, skip, closeMatch, raw := 0, 0, [], 0, [];
    }

    /**
     ProcessChunk: raw bytes pass verbatim; the filter blocks exactly at the raw offset of the visible
     byte at which the phrase filter blocks the visible-byte projection of the stream.
     */
    method ProcessChunk(chunk: Bytes) returns (out: Bytes, blocked: bool)
      requires Valid()
      modifies this, inner
      ensures raw == old(raw) + out && out <= chunk
      ensures !blocked ==> Valid() && out == chunk
      ensures blocked ==> BlocksAt(inner.es, inner.threshold, old(raw) + chunk, |raw|)
    {
      hide Visible, Run, Step, FirstBlock32, BlocksAt, PhraseStream.Valid, HardAt, Fold, IsSuffix;
      ghost var s := raw;
      assert s + chunk[..0] == s;
      for i := 0 to |chunk|
        invariant Valid() && raw == s + chunk[..i]
      {
        var b := chunk[i];
        ghost var t := raw;
        assert s + chunk[..i + 1] == t + [b];
        assert s + chunk == t + [b] + chunk[i + 1..];
        VisibleSnoc(Start, t, b);
        var emit := ConsumeByte(b);
        raw := t + [b];
        if emit {
          var _, stop := inner.ProcessChunk([b]);
          if stop {
            BlocksAtSnoc(inner.es, inner.threshold, t, b, chunk[i + 1..]);
            return chunk[..i + 1], true;
          }
        }
      }
      return chunk, false;
    }

    method ConsumeByte(b: byte) returns (emit: bool)
      modifies this
      ensures State() == Step(old(State()), b) && raw == old(raw)
      ensures emit == Shows(old(State()), b)
    {
      emit := false;
      if skip != [] {
        ConsumeSkippedContent(b);
      } else if comment > 0 {
        ConsumeComment(b);
      } else if inTag {
        ConsumeTag(b);
      } else if b == LT {
        inTag, tagClosing, tagNameDone, quote, tagName := true, false, false, 0, [];
      } else {
        emit := true;
      }
    }

    method ConsumeTag(b: byte)
      modifies this
      ensures State() == TagStep(old(State()), b) && raw == old(raw)
    {
      if quote != 0 {
        if b == quote {
          quote := 0;
        }
        return;
      }
      if b == DQUOTE || b == SQUOTE {
        quote := b;
        return;
      }
      if |tagName| == 0 && !tagClosing && b == BANG {
        comment := 1;
        inTag := false;
        return;
      }
      if |tagName| == 0 && b == SLASH {
        tagClosing := true;
        return;
      }
      if b == GT {
        if !tagClosing && (tagName == Script() || tagName == Style()) {
          skip := tagName;
          closeMatch := 0;
        }
        inTag, tagClosing, tagNameDone, quote, tagName := false, false, false, 0, [];
        return;
      }
      if IsSpace(b) || b == SLASH {
        tagNameDone := true;
        return;
      }
      if !tagNameDone {
        tagName := tagName + [Lower(b)];
      }
    }

    method ConsumeComment(b: byte)
      modifies this`comment
      ensures comment == CommentStep(old(comment), b)
    {
      if comment == 1 && b == DASH {
        comment := 2;
        return;
      }
      if comment == 2 && b == DASH {
        comment := 3;
        return;
      }
      if comment == 3 {
        if b == GT {
          comment := 0;
          return;
        }
        if b == DASH {
          return;
        }
      }
      comment := if b == GT then 0 else 1;
    }

    method ConsumeSkippedContent(b: byte)
      modifies this`skip, this`closeMatch
      ensures State() == SkipStep(old(State()), b)
    {
      var needle := Needle(skip);
      if closeMatch < |needle| && Lower(b) == needle[closeMatch] {
        closeMatch := closeMatch + 1;
        if closeMatch == |needle| {
          skip := [];
          closeMatch := 0;
        }
        return;
      }
      if Lower(b) == needle[0] {
        closeMatch := 1;
        return;
      }
      closeMatch := 0;
    }
  }
}
