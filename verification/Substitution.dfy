/**
 The windowed substituter. It holds back a window of bytes, rewrites what leaves it, and in
 length-preserving mode must not change the number of bytes: the announced Content-Length depends on it.
 Regular expressions are functions from a text to the spans they match.
 */
module Substitution {

  import opened Bytes

  datatype Literal = Literal(search: Bytes, replace: Bytes)

  datatype Span = Span(lo: nat, hi: nat)

  datatype Regex = Regex(find: Bytes -> seq<Span>, expand: (Bytes, Span) -> Bytes, replaceAll: Bytes -> Bytes)

  /** What regexp promises: the spans of a text are in range, ascending and disjoint. */
  ghost predicate GoodSpans(spans: seq<Span>, n: nat)
  {
    && (forall i | 0 <= i < |spans| :: spans[i].lo <= spans[i].hi <= n)
    && (forall i, j | 0 <= i < j < |spans| :: spans[i].hi <= spans[j].lo)
  }

  ghost predicate GoodRegex(r: Regex)
  {
    forall s: Bytes :: GoodSpans(r.find(s), |s|)
  }

  /** padOrTruncate: exactly n bytes, the replacement's own as far as they go, then stars. */
  function PadOrTruncate(replace: Bytes, n: nat): (r: Bytes)
    ensures |r| == n && forall i | 0 <= i < n :: r[i] == if i < |replace| then replace[i] else STAR
  {
    if |replace| >= n then replace[..n] else replace + seq(n - |replace|, _ => STAR)
  }

  // ---------------------------------------------------------------- literal rules

  /** bytes.Index: the first place p occurs in s, or the length of s plus one. */
  function Index(s: Bytes, p: Bytes): (i: nat)
    ensures i <= |s| ==> OccursAt(p, s, i)
    ensures forall j | 0 <= j < i :: !OccursAt(p, s, j)
    ensures i > |s| ==> !Occurs(p, s)
    decreases |s|
  {
    if |p| <= |s| && s[..|p|] == p then
      assert forall m | 0 <= m < |p| :: s[0 + m] == s[..|p|][m];
      0
    else if s == [] then 1
    else
      var i := Index(s[1..], p);
      assert forall j | 1 <= j <= |s| :: OccursAt(p, s, j) <==> OccursAt(p, s[1..], j - 1) by {
        OccursTail(p, s);
      }
      i + 1
  }

  lemma OccursTail(p: Bytes, s: Bytes)
    requires s != []
    ensures forall j | 1 <= j <= |s| :: OccursAt(p, s, j) <==> OccursAt(p, s[1..], j - 1)
  {
  }

  function ReplaceFirst(s: Bytes, p: Bytes, target: Bytes, i: nat): (r: Bytes)
    requires i <= |s|
    ensures |r| == i + |target|
  {
    s[..i] + target
  }

  /** Every occurrence, leftmost first and without overlap, replaced. */
  function ReplaceLiteral(s: Bytes, p: Bytes, target: Bytes): (r: Bytes)
    requires p != []
    decreases |s|
  {
    var i := Index(s, p);
    if i > |s| then s else ReplaceFirst(s, p, target, i) + ReplaceLiteral(s[i + |p|..], p, target)
  }

  lemma IndexMeans(s: Bytes, p: Bytes)
    ensures if Index(s, p) > |s| then !Occurs(p, s) else Occurs(p, s) && Index(s, p) + |p| <= |s|
  {
    hide Index;
    var i := Index(s, p);
    if i > |s| {
      if j :| OccursAt(p, s, j) {
        OccursBound(p, s, j);
      }
    } else {
      OccursBound(p, s, i);
    }
  }

  /** One round: nothing to replace, or the first occurrence replaced and the rest done the same way. */
  lemma ReplaceStep(s: Bytes, p: Bytes, target: Bytes)
    requires p != []
    ensures var i := Index(s, p);
      if i > |s| then ReplaceLiteral(s, p, target) == s && !Occurs(p, s)
      else
        && i + |p| <= |s| && Occurs(p, s)
        && ReplaceLiteral(s, p, target) == ReplaceFirst(s, p, target, i) + ReplaceLiteral(s[i + |p|..], p, target)
  {
    hide Index, Occurs, OccursAt, ReplaceFirst;
    IndexMeans(s, p);
  }

  lemma OccursShift(p: Bytes, s: Bytes, n: nat, j: int)
    requires n <= |s| && OccursAt(p, s[n..], j)
    ensures OccursAt(p, s, n + j)
  {
  }

  /** Byte k of s lies inside an occurrence of p. */
  ghost predicate InOccurrence(p: Bytes, s: Bytes, k: int)
  {
    exists j :: OccursAt(p, s, j) && j <= k < j + |p|
  }

  /** A same-length replacement changes no length and no byte outside an occurrence. */
  lemma {:induction false} LiteralPreserves(s: Bytes, p: Bytes, target: Bytes)
    requires p != [] && |target| == |p|
    ensures |ReplaceLiteral(s, p, target)| == |s|
    ensures forall k | 0 <= k < |s| :: ReplaceLiteral(s, p, target)[k] == s[k] || InOccurrence(p, s, k)
    decreases |s|
  {
    hide Index, OccursAt;
    var i := Index(s, p);
    if i <= |s| {
      OccursBound(p, s, i);
      var n := i + |p|;
      var rest := s[n..];
      LiteralPreserves(rest, p, target);
      forall k | 0 <= k < |s| ensures ReplaceLiteral(s, p, target)[k] == s[k] || InOccurrence(p, s, k) {
        if k >= n {
          if j :| OccursAt(p, rest, j) && j <= k - n < j + |p| {
            OccursShift(p, s, n, j);
          }
        }
      }
    }
  }

  lemma OccursBound(p: Bytes, s: Bytes, i: int)
    requires OccursAt(p, s, i)
    ensures 0 <= i && i + |p| <= |s|
  {
  }

  // ---------------------------------------------------------------- regex rules

  function ReplaceSpan(r: Regex, s: Bytes, sp: Span): (out: Bytes)
    requires sp.lo <= sp.hi <= |s|
    ensures |out| == |s| && forall k | 0 <= k < |s| && !(sp.lo <= k < sp.hi) :: out[k] == s[k]
  {
    s[..sp.lo] + PadOrTruncate(r.expand(s, sp), sp.hi - sp.lo) + s[sp.hi..]
  }

  /** The first n spans replaced, last one first, each by as many bytes as it has. */
  function ReplaceSpans(r: Regex, s: Bytes, spans: seq<Span>, n: nat): (out: Bytes)
    requires n <= |spans| && forall i | 0 <= i < n :: spans[i].lo <= spans[i].hi <= |s|
    ensures |out| == |s|
    decreases n
  {
    if n == 0 then s
    else
      var sp := spans[n - 1];
      ReplaceSpans(r, ReplaceSpan(r, s, sp), spans, n - 1)
  }

  lemma {:induction false} SpansPreserve(r: Regex, s: Bytes, spans: seq<Span>, n: nat)
    requires n <= |spans| && GoodSpans(spans, |s|)
    ensures forall k | 0 <= k < |s| && ReplaceSpans(r, s, spans, n)[k] != s[k] ::
      exists i :: 0 <= i < n && spans[i].lo <= k < spans[i].hi
    decreases n
  {
    if n > 0 {
      var sp := spans[n - 1];
      SpansPreserve(r, ReplaceSpan(r, s, sp), spans, n - 1);
    }
  }

  // ---------------------------------------------------------------- all rules together

  function Target(r: Literal, preserve: bool): Bytes
  {
    if preserve then PadOrTruncate(r.replace, |r.search|) else r.replace
  }

  /** The text after the first n literal rules. */
  ghost function LiteralsApplied(rules: seq<Literal>, preserve: bool, text: Bytes, n: nat): Bytes
    requires n <= |rules| && forall i | 0 <= i < |rules| :: rules[i].search != []
  {
    if n == 0 then text
    else ReplaceLiteral(LiteralsApplied(rules, preserve, text, n - 1), rules[n - 1].search, Target(rules[n - 1], preserve))
  }

  ghost function RegexApplied(r: Regex, preserve: bool, text: Bytes): Bytes
    requires GoodRegex(r)
  {
    var spans := r.find(text);
    assert GoodSpans(r.find(text), |text|);
    if spans == [] then text else if preserve then ReplaceSpans(r, text, spans, |spans|) else r.replaceAll(text)
  }

  /** The text after the first n regex rules. */
  ghost function RegexesApplied(rules: seq<Regex>, preserve: bool, text: Bytes, n: nat): Bytes
    requires n <= |rules| && forall i | 0 <= i < |rules| :: GoodRegex(rules[i])
  {
    if n == 0 then text else RegexApplied(rules[n - 1], preserve, RegexesApplied(rules, preserve, text, n - 1))
  }

  lemma ReplaceNone(s: Bytes, p: Bytes, target: Bytes)
    requires p != [] && !Occurs(p, s)
    ensures ReplaceLiteral(s, p, target) == s
  {
  }

  // ---------------------------------------------------------------- what comes of a match

  /** The parts with a separator between them. */
  function Join(parts: seq<Bytes>, sep: Bytes): Bytes
    requires parts != []
  {
    if |parts| == 1 then parts[0] else parts[0] + sep + Join(parts[1..], sep)
  }

  /** Replacing a text is splitting the input at it, leftmost first, and joining the parts, which do not have it, with the replacement. */
  lemma {:induction false} LiteralMeans(s: Bytes, p: Bytes, target: Bytes) returns (parts: seq<Bytes>)
    requires p != []
    ensures parts != [] && s == Join(parts, p) && ReplaceLiteral(s, p, target) == Join(parts, target)
    ensures forall i | 0 <= i < |parts| :: !Occurs(p, parts[i])
    ensures |parts| > 1 ==> forall j | 0 <= j < |parts[0]| :: !OccursAt(p, s, j)
    decreases |s|
  {
    hide Index, ReplaceLiteral, ReplaceFirst, Occurs;
    ReplaceStep(s, p, target);
    var i := Index(s, p);
    if i > |s| {
      parts := [s];
    } else {
      var rest := s[i + |p|..];
      var later := LiteralMeans(rest, p, target);
      parts := [s[..i]] + later;
      assert parts[1..] == later;
      FirstPart(s, p, i);
      ReplaceFirstIs(s, p, target, i);
      assert s == s[..i] + p + rest;
    }
  }

  lemma FirstPart(s: Bytes, p: Bytes, i: nat)
    requires p != [] && i == Index(s, p) <= |s| && i + |p| <= |s|
    ensures s[i..i + |p|] == p && !Occurs(p, s[..i])
  {
    hide Index;
    if j :| OccursAt(p, s[..i], j) {
      OccursInFront(p, s, i, j);
    }
  }

  lemma OccursInFront(p: Bytes, s: Bytes, i: nat, j: int)
    requires i <= |s| && OccursAt(p, s[..i], j)
    ensures OccursAt(p, s, j)
  {
  }

  lemma ReplaceFirstIs(s: Bytes, p: Bytes, target: Bytes, i: nat)
    requires i <= |s|
    ensures ReplaceFirst(s, p, target, i) == s[..i] + target
  {
  }

  /** What stands for a match of n bytes: the replacement, or when lengths are kept as much of it as fits and then stars. */
  ghost predicate StandsFor(preserve: bool, n: nat, replacement: Bytes, body: Bytes)
  {
    if preserve then |body| == n && forall k | 0 <= k < n :: body[k] == if k < |replacement| then replacement[k] else STAR
    else body == replacement
  }

  /** A text that occurs once: the bytes before it, what stands for it, the bytes after it. */
  lemma OneLiteral(r: Literal, preserve: bool, a: Bytes, b: Bytes) returns (body: Bytes)
    requires r.search != [] && forall j | 0 <= j < |a| :: !OccursAt(r.search, a + r.search + b, j)
    requires !Occurs(r.search, b)
    ensures StandsFor(preserve, |r.search|, r.replace, body)
    ensures LiteralsApplied([r], preserve, a + r.search + b, 1) == a + body + b
  {
    hide Index, ReplaceLiteral, Occurs;
    var p, s := r.search, a + r.search + b;
    body := Target(r, preserve);
    assert OccursAt(p, s, |a|);
    IndexMeans(s, p);
    ReplaceStep(s, p, body);
    assert Index(s, p) == |a| by {
      OccursMeans(p, s, |a|);
    }
    assert s[..|a|] == a && s[|a| + |p|..] == b;
    ReplaceStep(b, p, body);
    IndexMeans(b, p);
    assert LiteralsApplied([r], preserve, s, 0) == s;
  }

  lemma OccursMeans(p: Bytes, s: Bytes, i: int)
    requires OccursAt(p, s, i)
    ensures Occurs(p, s)
  {
  }

  lemma NoLiteral(r: Literal, preserve: bool, s: Bytes)
    requires r.search != [] && !Occurs(r.search, s)
    ensures LiteralsApplied([r], preserve, s, 1) == s
  {
    hide ReplaceLiteral, Occurs;
    ReplaceNone(s, r.search, Target(r, preserve));
    assert LiteralsApplied([r], preserve, s, 0) == s;
  }

  /** Several rules are the single ones one after the other. */
  lemma LiteralsInOrder(rules: seq<Literal>, preserve: bool, text: Bytes, n: nat)
    requires n < |rules| && forall i | 0 <= i < |rules| :: rules[i].search != []
    ensures LiteralsApplied(rules, preserve, text, n + 1)
      == LiteralsApplied([rules[n]], preserve, LiteralsApplied(rules, preserve, text, n), 1)
  {
    var before := LiteralsApplied(rules, preserve, text, n);
    assert LiteralsApplied([rules[n]], preserve, before, 0) == before;
  }

  /** A regex that matches one span: the bytes before it, as many as it has, the bytes after it; or the expression's own replacement. */
  lemma OneSpan(r: Regex, s: Bytes, sp: Span) returns (body: Bytes)
    requires GoodRegex(r) && r.find(s) == [sp]
    ensures sp.lo <= sp.hi <= |s| && StandsFor(true, sp.hi - sp.lo, r.expand(s, sp), body)
    ensures RegexApplied(r, true, s) == s[..sp.lo] + body + s[sp.hi..]
    ensures RegexApplied(r, false, s) == r.replaceAll(s)
  {
    var spans := r.find(s);
    assert GoodSpans(spans, |s|) && spans[0] == sp;
    body := PadOrTruncate(r.expand(s, sp), sp.hi - sp.lo);
    assert ReplaceSpans(r, s, spans, 1) == ReplaceSpans(r, ReplaceSpan(r, s, sp), spans, 0);
  }

  /** u is s but for bytes from n on. */
  ghost predicate SameBefore(s: Bytes, u: Bytes, n: nat)
  {
    |u| == |s| && n <= |s| && u[..n] == s[..n]
  }

  /** The bytes of span i in out are what stands for it, expanded in a text that is s up to the end of the span. */
  ghost predicate Filled(r: Regex, s: Bytes, out: Bytes, sp: Span)
    requires sp.lo <= sp.hi <= |out|
  {
    exists u :: SameBefore(s, u, sp.hi) && StandsFor(true, sp.hi - sp.lo, r.expand(u, sp), out[sp.lo..sp.hi])
  }

  /** Of several spans each is filled with its own expansion, and the bytes between them stay. */
  lemma {:induction false} SpansFilled(r: Regex, s: Bytes, spans: seq<Span>, n: nat)
    requires n <= |spans| && GoodSpans(spans, |s|)
    ensures forall i | 0 <= i < n :: Filled(r, s, ReplaceSpans(r, s, spans, n), spans[i])
    decreases n
  {
    hide StandsFor;
    if n > 0 {
      var sp := spans[n - 1];
      var t, out := ReplaceSpan(r, s, sp), ReplaceSpans(r, s, spans, n);
      SpansFilled(r, t, spans, n - 1);
      forall i | 0 <= i < n
        ensures Filled(r, s, out, spans[i])
      {
        if i == n - 1 {
          LastSpan(r, s, spans, n);
        } else {
          var u :| SameBefore(t, u, spans[i].hi) && StandsFor(true, spans[i].hi - spans[i].lo, r.expand(u, spans[i]), out[spans[i].lo..spans[i].hi]);
          assert t[..spans[i].hi] == s[..spans[i].hi];
          assert SameBefore(s, u, spans[i].hi);
        }
      }
    }
  }

  lemma LastSpan(r: Regex, s: Bytes, spans: seq<Span>, n: nat)
    requires 0 < n <= |spans| && GoodSpans(spans, |s|)
    ensures Filled(r, s, ReplaceSpans(r, s, spans, n), spans[n - 1])
  {
    var sp := spans[n - 1];
    var t, out := ReplaceSpan(r, s, sp), ReplaceSpans(r, s, spans, n);
    SpanKept(r, t, spans, n);
    assert t[sp.lo..sp.hi] == PadOrTruncate(r.expand(s, sp), sp.hi - sp.lo);
    assert SameBefore(s, s, sp.hi);
  }

  /** Replacing the spans before it leaves a span alone. */
  lemma SpanKept(r: Regex, t: Bytes, spans: seq<Span>, n: nat)
    requires 0 < n <= |spans| && GoodSpans(spans, |t|)
    ensures var sp := spans[n - 1]; ReplaceSpans(r, t, spans, n - 1)[sp.lo..sp.hi] == t[sp.lo..sp.hi]
  {
    hide ReplaceSpans;
    SpansPreserve(r, t, spans, n - 1);
  }

  // ---------------------------------------------------------------- what a rewriting touches

  /** Byte k lies inside a match of one of the first n literal rules, in the text as the rules before it left it. */
  ghost predicate LiteralTouches(rules: seq<Literal>, preserve: bool, text: Bytes, n: nat, k: int)
    requires n <= |rules| && forall i | 0 <= i < |rules| :: rules[i].search != []
  {
    exists i :: 0 <= i < n && InOccurrence(rules[i].search, LiteralsApplied(rules, preserve, text, i), k)
  }

  lemma {:induction false} LiteralsTouch(rules: seq<Literal>, text: Bytes, n: nat)
    requires n <= |rules| && forall i | 0 <= i < |rules| :: rules[i].search != []
    ensures |LiteralsApplied(rules, true, text, n)| == |text|
    ensures forall k | 0 <= k < |text| ::
      LiteralsApplied(rules, true, text, n)[k] == text[k] || LiteralTouches(rules, true, text, n, k)
  {
    hide ReplaceLiteral, InOccurrence;
    if n > 0 {
      var before := LiteralsApplied(rules, true, text, n - 1);
      LiteralsTouch(rules, text, n - 1);
      LiteralPreserves(before, rules[n - 1].search, Target(rules[n - 1], true));
      forall k | 0 <= k < |text| && (LiteralTouches(rules, true, text, n - 1, k) || InOccurrence(rules[n - 1].search, before, k))
        ensures LiteralTouches(rules, true, text, n, k)
      {
      }
    }
  }

  ghost predicate InSpan(r: Regex, text: Bytes, k: int)
  {
    exists i :: 0 <= i < |r.find(text)| && r.find(text)[i].lo <= k < r.find(text)[i].hi
  }

  /** The same for regex rules. */
  ghost predicate RegexTouches(rules: seq<Regex>, preserve: bool, text: Bytes, n: nat, k: int)
    requires n <= |rules| && forall i | 0 <= i < |rules| :: GoodRegex(rules[i])
  {
    exists i :: 0 <= i < n && InSpan(rules[i], RegexesApplied(rules, preserve, text, i), k)
  }

  lemma {:induction false} RegexesTouch(rules: seq<Regex>, text: Bytes, n: nat)
    requires n <= |rules| && forall i | 0 <= i < |rules| :: GoodRegex(rules[i])
    ensures |RegexesApplied(rules, true, text, n)| == |text|
    ensures forall k | 0 <= k < |text| ::
      RegexesApplied(rules, true, text, n)[k] == text[k] || RegexTouches(rules, true, text, n, k)
  {
    hide GoodRegex, RegexApplied, InSpan;
    if n > 0 {
      var before := RegexesApplied(rules, true, text, n - 1);
      RegexesTouch(rules, text, n - 1);
      OneRegexTouches(rules[n - 1], before);
      forall k | 0 <= k < |text| && (RegexTouches(rules, true, text, n - 1, k) || InSpan(rules[n - 1], before, k))
        ensures RegexTouches(rules, true, text, n, k)
      {
      }
    }
  }

  lemma OneRegexTouches(r: Regex, text: Bytes)
    requires GoodRegex(r)
    ensures |RegexApplied(r, true, text)| == |text|
    ensures forall k | 0 <= k < |text| :: RegexApplied(r, true, text)[k] == text[k] || InSpan(r, text, k)
  {
    hide ReplaceSpans;
    var spans := r.find(text);
    assert GoodSpans(spans, |text|);
    SpansPreserve(r, text, spans, |spans|);
  }

  // ---------------------------------------------------------------- how a stream is cut

  /** What is cut off the buffer when a chunk comes in: all but the window. */
  function Cut(maxWindow: nat, all: Bytes): (r: Bytes)
    ensures r <= all
  {
    if |all| <= maxWindow then [] else all[..|all| - maxWindow]
  }

  /** The pieces a chunked stream is cut into, the last being what is still kept back when it ends. */
  function PiecesOf(maxWindow: nat, pending: Bytes, chunks: seq<Bytes>): seq<Bytes>
    decreases |chunks|
  {
    if chunks == [] then if pending == [] then [] else [pending]
    else if chunks[0] == [] then PiecesOf(maxWindow, pending, chunks[1..])
    else
      var all := pending + chunks[0];
      var cut := Cut(maxWindow, all);
      (if cut == [] then [] else [cut]) + PiecesOf(maxWindow, all[|cut|..], chunks[1..])
  }

  /** The pieces are the stream. */
  lemma {:induction false} PiecesSpell(maxWindow: nat, pending: Bytes, chunks: seq<Bytes>)
    ensures Concat(PiecesOf(maxWindow, pending, chunks)) == pending + Concat(chunks)
    decreases |chunks|
  {
    hide Cut, Concat, PiecesOf;
    if chunks == [] {
      PiecesEnd(maxWindow, pending);
      PieceFront(pending, []);
      NothingSpelled();
      assert pending + [] == pending;
      assert (if pending == [] then [] else [pending]) + [] == PiecesOf(maxWindow, pending, chunks);
    } else {
      var c, rest := chunks[0], chunks[1..];
      assert chunks[0..] == chunks;
      PiecesStep(maxWindow, pending, chunks, 0);
      var all := pending + c;
      var cut := if c == [] then [] else Cut(maxWindow, all);
      PiecesSpell(maxWindow, all[|cut|..], rest);
      PieceFront(cut, PiecesOf(maxWindow, all[|cut|..], rest));
      SpellStep(pending, chunks, cut);
      if c == [] {
        assert all[0..] == pending;
      }
    }
  }

  lemma SpellStep(pending: Bytes, chunks: seq<Bytes>, cut: Bytes)
    requires chunks != [] && cut <= pending + chunks[0]
    ensures cut + ((pending + chunks[0])[|cut|..] + Concat(chunks[1..])) == pending + Concat(chunks)
  {
    var all, rest := pending + chunks[0], Concat(chunks[1..]);
    assert all == cut + all[|cut|..];
    assert cut + (all[|cut|..] + rest) == all + rest == pending + (chunks[0] + rest);
  }

  lemma PieceFront(cut: Bytes, rest: seq<Bytes>)
    ensures Concat((if cut == [] then [] else [cut]) + rest) == cut + Concat(rest)
  {
    if cut == [] {
      assert [] + rest == rest && cut + Concat(rest) == Concat(rest);
    } else {
      assert ([cut] + rest)[1..] == rest;
    }
  }

  lemma PiecesStep(maxWindow: nat, pending: Bytes, chunks: seq<Bytes>, i: nat)
    requires i < |chunks|
    ensures var all := pending + chunks[i]; var cut := Cut(maxWindow, all);
      PiecesOf(maxWindow, pending, chunks[i..]) ==
        if chunks[i] == [] then PiecesOf(maxWindow, pending, chunks[i + 1..])
        else (if cut == [] then [] else [cut]) + PiecesOf(maxWindow, all[|cut|..], chunks[i + 1..])
  {
    assert chunks[i..][1..] == chunks[i + 1..];
  }

  lemma PiecesEnd(maxWindow: nat, pending: Bytes)
    ensures PiecesOf(maxWindow, pending, []) == if pending == [] then [] else [pending]
  {
  }

  // ---------------------------------------------------------------- the stream

  const DEFAULT_WINDOW := 64 * 1024

  /** The window NewFilter chooses: the longest search or the widest window a regex asks for. */
  method WindowFor(rules: seq<Literal>, windows: seq<nat>) returns (w: nat)
    ensures forall i | 0 <= i < |rules| :: |rules[i].search| <= w
    ensures forall i | 0 <= i < |windows| :: windows[i] <= w
    ensures w in windows || (exists i :: 0 <= i < |rules| && |rules[i].search| == w)
      || (w == DEFAULT_WINDOW && (forall i | 0 <= i < |rules| :: rules[i].search == []) && forall i | 0 <= i < |windows| :: windows[i] == 0)
  {
    w := 0;
    for k := 0 to |windows|
      invariant forall i | 0 <= i < k :: windows[i] <= w
      invariant w > 0 ==> w in windows[..k]
    {
      if windows[k] > w {
        w := windows[k];
      }
    }
    for k := 0 to |rules|
      invariant forall i | 0 <= i < |windows| :: windows[i] <= w
      invariant forall i | 0 <= i < k :: |rules[i].search| <= w
      invariant w > 0 ==> w in windows || exists i :: 0 <= i < k && |rules[i].search| == w
    {
      if |rules[k].search| > w {
        w := |rules[k].search|;
      }
    }
    if w == 0 {
      w := DEFAULT_WINDOW;
    }
  }

  class SubstitutionStream {
    const rules: seq<Literal>
    const regexRules: seq<Regex>
    const maxWindow: nat
    const lengthPreserved: bool
    const blockOnMatch: bool
    var pending: Bytes
    var matched: bool          // matchedError is set
    ghost var received: Bytes
    ghost var emitted: Bytes
    ghost var segments: seq<Bytes>   // the pieces of the input that have gone out, as they were cut
    ghost var hit: Bytes             // the piece that made a blocking stream fail

    ghost predicate Config()
    {
      && (forall i | 0 <= i < |rules| :: rules[i].search != [])
      && (forall i | 0 <= i < |regexRules| :: GoodRegex(regexRules[i]))
    }

    /** What every byte that leaves the window goes through. */
    ghost function Rewritten(t: Bytes): Bytes
      requires Config()
    {
      RegexesApplied(regexRules, lengthPreserved, LiteralsApplied(rules, lengthPreserved, t, |rules|), |regexRules|)
    }

    /** Some rule matches t. */
    ghost predicate Hit(t: Bytes)
    {
      || (exists i :: 0 <= i < |rules| && Occurs(rules[i].search, t))
      || (exists i :: 0 <= i < |regexRules| && regexRules[i].find(t) != [])
    }

    /** What goes out for a piece of the input. */
    ghost function Put(t: Bytes): Bytes
      requires Config()
    {
      if blockOnMatch then t else Rewritten(t)
    }

    ghost function Sent(pieces: seq<Bytes>): Bytes
      requires Config()
    {
      if pieces == [] then [] else Sent(pieces[..|pieces| - 1]) + Put(pieces[|pieces| - 1])
    }

    /** Byte k of a piece lies inside a match of some rule, in the piece as the rules before it left it. */
    ghost predicate Touched(t: Bytes, k: int)
      requires Config()
    {
      || LiteralTouches(rules, lengthPreserved, t, |rules|, k)
      || RegexTouches(regexRules, lengthPreserved, LiteralsApplied(rules, lengthPreserved, t, |rules|), |regexRules|, k)
    }

    /**
     The input is the pieces that have gone out and the bytes kept back, untouched; the output is what goes out for
     the pieces; a blocking stream has let no match out.
     */
    ghost predicate Flowing()
      reads this
    {
      && Config() && received == Concat(segments) + pending && emitted == Sent(segments)
      && (blockOnMatch ==> forall i | 0 <= i < |segments| :: !Hit(segments[i]))
    }

    /** Besides, no more than the window is kept back, and a stream that has failed did so at a piece with a match. */
    ghost predicate Valid()
      reads this
    {
      && Flowing()
      && (!matched ==> |pending| <= maxWindow)
      && (matched ==> blockOnMatch && Hit(hit) && hit <= pending)
    }

    lemma {:induction false} SentPlain(pieces: seq<Bytes>)
      requires Config() && blockOnMatch
      ensures Sent(pieces) == Concat(pieces)
    {
      if pieces != [] {
        var front, last := pieces[..|pieces| - 1], pieces[|pieces| - 1];
        SentPlain(front);
        assert pieces == front + [last];
        ConcatSnoc(front, last);
      }
    }

    lemma PutLength(t: Bytes)
      requires Config() && lengthPreserved
      ensures |Put(t)| == |t|
      ensures !blockOnMatch ==> forall k | 0 <= k < |t| :: Put(t)[k] == t[k] || Touched(t, k)
    {
      hide LiteralsApplied, RegexesApplied, LiteralTouches, RegexTouches;
      if !blockOnMatch {
        var u := LiteralsApplied(rules, true, t, |rules|);
        LiteralsTouch(rules, t, |rules|);
        RegexesTouch(regexRules, u, |regexRules|);
      }
    }

    /** In length-preserving mode a byte of the output differs from the input byte at its offset only inside a match. */
    lemma {:induction false} SentTouches(pieces: seq<Bytes>)
      requires Config() && lengthPreserved
      ensures |Sent(pieces)| == |Concat(pieces)|
      ensures !blockOnMatch ==> OnlyMatches(Concat(pieces), Sent(pieces))
    {
      hide Put, Touched;
      if pieces != [] {
        var front, last := pieces[..|pieces| - 1], pieces[|pieces| - 1];
        SentTouches(front);
        PutLength(last);
        assert pieces == front + [last];
        ConcatSnoc(front, last);
        if !blockOnMatch {
          var done, all, out := Concat(front), Concat(pieces), Sent(pieces);
          forall k | 0 <= k < |all| && out[k] != all[k]
            ensures TouchedAt(all, k)
          {
            if k < |done| {
              var lo, hi :| TouchedBy(done, lo, hi, k);
              assert all[lo..hi] == done[lo..hi];
              assert TouchedBy(all, lo, hi, k);
            } else {
              assert all[|done|..|all|] == last;
              assert TouchedBy(all, |done|, |all|, k);
            }
          }
        }
      }
    }

    /** The piece of the input from lo to hi has a match around byte k. */
    ghost predicate TouchedBy(input: Bytes, lo: int, hi: int, k: int)
      requires Config()
    {
      0 <= lo <= k < hi <= |input| && Touched(input[lo..hi], k - lo)
    }

    ghost predicate TouchedAt(input: Bytes, k: int)
      requires Config()
    {
      exists lo, hi :: TouchedBy(input, lo, hi, k)
    }

    ghost predicate OnlyMatches(input: Bytes, out: Bytes)
      requires Config()
    {
      |out| == |input| && forall k | 0 <= k < |input| && out[k] != input[k] :: TouchedAt(input, k)
    }

    constructor (rules: seq<Literal>, regexRules: seq<Regex>, maxWindow: nat, lengthPreserved: bool, blockOnMatch: bool)
      requires forall i | 0 <= i < |rules| :: rules[i].search != []
      requires forall i | 0 <= i < |regexRules| :: GoodRegex(regexRules[i])
      ensures Valid() && !matched && received == [] && emitted == [] && segments == [] && pending == []
      ensures this.lengthPreserved == lengthPreserved && this.blockOnMatch == blockOnMatch && this.maxWindow == maxWindow
      ensures this.rules == rules && this.regexRules == regexRules
    {
      this.rules, this.regexRules, this.maxWindow := rules, regexRules, maxWindow;
      this.lengthPreserved, this.blockOnMatch := lengthPreserved, blockOnMatch;
      pending, matched, received, emitted, segments := [], false, [], [], [];
    }

    /** applyRules: literals in order, then regexes in order; a match that must block is recorded and nothing is rewritten. */
    method ApplyRules(text: Bytes) returns (out: Bytes)
      requires Config() && !matched
      modifies this`matched
      ensures blockOnMatch ==> out == text && (matched <==> Hit(text))
      ensures !blockOnMatch ==> !matched && out == Rewritten(text)
      ensures lengthPreserved ==> |out| == |text|
    {
      hide GoodRegex, Occurs, LiteralsApplied, RegexesApplied;
      out := ApplyLiterals(text);
      if !matched {
        var out' := ApplyRegexes(out);
        out := if matched then text else out';
      }
    }

    method ApplyLiterals(text: Bytes) returns (out: Bytes)
      requires Config() && !matched
      modifies this`matched
      ensures blockOnMatch ==> out == text && (matched <==> exists i :: 0 <= i < |rules| && Occurs(rules[i].search, text))
      ensures !blockOnMatch ==> !matched && out == LiteralsApplied(rules, lengthPreserved, text, |rules|)
      ensures lengthPreserved ==> |out| == |text|
    {
      hide GoodRegex, Occurs, ReplaceLiteral;
      out := text;
      var i := 0;
      while i < |rules|
        invariant 0 <= i <= |rules| && !matched
        invariant lengthPreserved ==> |out| == |text|
        invariant !blockOnMatch ==> out == LiteralsApplied(rules, lengthPreserved, text, i)
        invariant blockOnMatch ==> out == text && forall k | 0 <= k < i :: !Occurs(rules[k].search, text)
      {
        var r := rules[i];
        var target := Target(r, lengthPreserved);
        var replaced, found := Splice(out, r.search, target);
        if found {
          if blockOnMatch {
            matched := true;
            return text;
          }
          if lengthPreserved {
            LiteralPreserves(out, r.search, target);
          }
          out := replaced;
        } else {
          ReplaceNone(out, r.search, target);
        }
        i := i + 1;
      }
    }

    method ApplyRegexes(text: Bytes) returns (out: Bytes)
      requires Config() && !matched
      modifies this`matched
      ensures blockOnMatch ==> out == text && (matched <==> exists i :: 0 <= i < |regexRules| && regexRules[i].find(text) != [])
      ensures !blockOnMatch ==> !matched && out == RegexesApplied(regexRules, lengthPreserved, text, |regexRules|)
      ensures lengthPreserved ==> |out| == |text|
    {
      hide GoodRegex, RegexApplied;
      out := text;
      var i := 0;
      while i < |regexRules|
        invariant 0 <= i <= |regexRules| && !matched
        invariant lengthPreserved ==> |out| == |text|
        invariant !blockOnMatch ==> out == RegexesApplied(regexRules, lengthPreserved, text, i)
        invariant blockOnMatch ==> out == text && forall k | 0 <= k < i :: regexRules[k].find(text) == []
      {
        var rewritten, found := ApplyRegex(regexRules[i], out);
        if found && blockOnMatch {
          matched := true;
          return text;
        }
        if !blockOnMatch {
          out := rewritten;
        }
        i := i + 1;
      }
    }

    method ApplyRegex(r: Regex, text: Bytes) returns (out: Bytes, found: bool)
      requires GoodRegex(r)
      ensures found <==> r.find(text) != []
      ensures !blockOnMatch ==> out == RegexApplied(r, lengthPreserved, text)
      ensures lengthPreserved ==> |out| == |text|
    {
      hide ReplaceSpans;
      out := text;
      var spans := r.find(text);
      found := spans != [];
      if found && !blockOnMatch {
        if lengthPreserved {
          out := Rewrite(r, text, spans);
        } else {
          out := r.replaceAll(text);
        }
      }
    }

    /** The literal loop: repeatedly find, cut and join. */
    method Splice(s: Bytes, p: Bytes, target: Bytes) returns (out: Bytes, found: bool)
      requires p != []
      ensures out == ReplaceLiteral(s, p, target) && (found <==> Occurs(p, s))
    {
      hide Index, ReplaceFirst, ReplaceLiteral, Occurs;
      out, found := [], false;
      var rest := s;
      assert [] + ReplaceLiteral(s, p, target) == ReplaceLiteral(s, p, target);
      while true
        invariant ReplaceLiteral(s, p, target) == out + ReplaceLiteral(rest, p, target)
        invariant if found then Occurs(p, s) else rest == s
        decreases |rest|
      {
        ReplaceStep(rest, p, target);
        var i := Index(rest, p);
        if i > |rest| {
          out := out + rest;
          return;
        }
        found := true;
        ghost var first, tail := ReplaceFirst(rest, p, target, i), ReplaceLiteral(rest[i + |p|..], p, target);
        assert out + (first + tail) == (out + first) + tail;
        out := out + ReplaceFirst(rest, p, target, i);
        rest := rest[i + |p|..];
      }
    }

    /** The regex loop: spans from the last to the first, so earlier spans keep their place. */
    method Rewrite(r: Regex, s: Bytes, spans: seq<Span>) returns (out: Bytes)
      requires GoodSpans(spans, |s|)
      ensures out == ReplaceSpans(r, s, spans, |spans|)
    {
      hide ReplaceSpan;
      out := s;
      var i := |spans|;
      while i > 0
        invariant 0 <= i <= |spans| && |out| == |s|
        invariant ReplaceSpans(r, s, spans, |spans|) == ReplaceSpans(r, out, spans, i)
      {
        i := i - 1;
        var sp := spans[i];
        out := ReplaceSpan(r, out, sp);
      }
    }

    /**
     ProcessChunk: the bytes beyond the window go out, rewritten; a blocking stream fails exactly when a rule matches
     them, and then nothing is ever emitted again.
     */
    method ProcessChunk(chunk: Bytes) returns (out: Bytes, failed: bool)
      requires Valid()
      modifies this
      ensures Valid() && failed == matched && emitted == old(emitted) + out
      ensures old(matched) ==> failed && out == [] && unchanged(this)
      ensures chunk == [] ==> out == [] && unchanged(this)
      ensures !old(matched) && chunk != [] ==>
        var all := old(pending) + chunk;
        var cut := Cut(maxWindow, all);
        && received == old(received) + chunk
        && (failed <==> blockOnMatch && cut != [] && Hit(cut))
        && (!failed && cut != [] ==> segments == old(segments) + [cut] && out == Put(cut))
        && (failed || cut == [] ==> segments == old(segments) && out == [])
        && (if failed then hit == cut else pending == all[|cut|..])
    {
      hide GoodRegex, Put, Hit, Sent, Config;
      if matched {
        return [], true;
      }
      if chunk == [] {
        return [], false;
      }
      assert Concat(segments) + pending + chunk == Concat(segments) + (pending + chunk);
      received := received + chunk;
      pending := pending + chunk;
      if |pending| <= maxWindow {
        return [], false;
      }
      out, failed := EmitFront(|pending| - maxWindow);
    }

    /** The first n bytes kept back go out, rewritten, or make a blocking stream fail. */
    method EmitFront(n: nat) returns (out: Bytes, failed: bool)
      requires Flowing() && !matched && 0 < n <= |pending|
      modifies this
      ensures Flowing() && received == old(received) && failed == matched
      ensures failed <==> blockOnMatch && Hit(old(pending)[..n])
      ensures failed ==>
        out == [] && pending == old(pending) && segments == old(segments) && emitted == old(emitted) && hit == pending[..n]
      ensures !failed ==> var cut := old(pending)[..n];
        && pending == old(pending)[n..] && segments == old(segments) + [cut]
        && out == Put(cut) && emitted == old(emitted) + out
    {
      hide GoodRegex, Rewritten, Hit, Sent;
      ghost var cut := pending[..n];
      var rewritten := ApplyRules(pending[..n]);
      if matched {
        hit := cut;
        return [], true;
      }
      SegmentOut(cut, pending[n..]);
      assert pending == cut + pending[n..];
      out := rewritten;
      pending := pending[n..];
      segments, emitted := segments + [cut], emitted + out;
      failed := false;
    }

    lemma SegmentOut(cut: Bytes, rest: Bytes)
      requires Config()
      ensures Concat(segments + [cut]) + rest == Concat(segments) + (cut + rest)
      ensures Sent(segments + [cut]) == Sent(segments) + Put(cut)
    {
      hide Put;
      ConcatSnoc(segments, cut);
      assert (segments + [cut])[..|segments|] == segments;
    }

    /** Flush: the window goes out too, rewritten, unless a blocking match was or is seen in it. */
    method Flush() returns (out: Bytes, failed: bool)
      requires Valid()
      modifies this
      ensures Valid() && failed == matched && emitted == old(emitted) + out && received == old(received)
      ensures old(matched) ==> failed && out == [] && unchanged(this)
      ensures !old(matched) ==>
        && (failed <==> blockOnMatch && old(pending) != [] && Hit(old(pending)))
        && (!failed && old(pending) != [] ==> segments == old(segments) + [old(pending)] && out == Put(old(pending)))
        && (failed || old(pending) == [] ==> segments == old(segments) && out == [])
        && (failed ==> hit == old(pending))
      ensures !failed ==> pending == []
    {
      hide GoodRegex, Put, Hit, Sent, Config;
      if matched {
        return [], true;
      }
      if pending == [] {
        return [], false;
      }
      assert pending[..|pending|] == pending && pending[|pending|..] == [];
      out, failed := EmitFront(|pending|);
    }
  }

  /** The run of a blocking stream failed: at a piece with a match, the pieces before it having gone out. */
  ghost predicate FailedAt(stream: SubstitutionStream, pieces: seq<Bytes>)
    reads stream
  {
    var k := |stream.segments|;
    k < |pieces| && stream.segments == pieces[..k] && stream.hit == pieces[k] && stream.Hit(pieces[k])
  }

  ghost predicate AnyHit(stream: SubstitutionStream, pieces: seq<Bytes>)
  {
    exists k :: 0 <= k < |pieces| && stream.Hit(pieces[k])
  }

  /** The chunks in order up to the first failure, then the flush. */
  method Feed(stream: SubstitutionStream, chunks: seq<Bytes>) returns (out: Bytes, failed: bool)
    requires stream.Valid() && !stream.matched && stream.received == [] && stream.segments == []
    modifies stream
    ensures stream.Valid() && stream.emitted == out && failed == stream.matched
    ensures var pieces := PiecesOf(stream.maxWindow, [], chunks);
      if failed then FailedAt(stream, pieces) else stream.segments == pieces
  {
    hide GoodRegex, SubstitutionStream.Put, SubstitutionStream.Hit, SubstitutionStream.Sent, SubstitutionStream.Config, PiecesOf, Cut;
    out, failed := [], false;
    ghost var window, pieces := stream.maxWindow, PiecesOf(stream.maxWindow, [], chunks);
    var i := 0;
    assert stream.emitted == [] by {
      SentNone(stream);
    }
    assert chunks[0..] == chunks && stream.pending == [];
    while i < |chunks| && !failed
      invariant 0 <= i <= |chunks| && stream.Valid() && stream.emitted == out && failed == stream.matched
      invariant !failed ==> pieces == stream.segments + PiecesOf(window, stream.pending, chunks[i..])
      invariant failed ==> FailedAt(stream, pieces)
      decreases |chunks| - i
    {
      PiecesStep(window, stream.pending, chunks, i);
      var piece;
      piece, failed := stream.ProcessChunk(chunks[i]);
      out := out + piece;
      i := i + 1;
    }
    if !failed {
      assert chunks[i..] == [];
      PiecesEnd(window, stream.pending);
      var rest;
      rest, failed := stream.Flush();
      out := out + rest;
    }
  }

  /**
   A whole stream in any chunks. The input is cut into its pieces, and what comes out is what goes out for them. When
   lengths are preserved, as many bytes come out as went in and only bytes inside a match differ. When matches block,
   the run fails exactly if a piece has a match; the pieces before the first such piece come out and nothing after.
   */
  method SubstituteAll(stream: SubstitutionStream, chunks: seq<Bytes>) returns (out: Bytes, failed: bool)
    requires stream.Valid() && !stream.matched && stream.received == [] && stream.segments == []
    modifies stream
    ensures stream.Config() && out == stream.Sent(stream.segments)
    ensures failed <==> stream.blockOnMatch && AnyHit(stream, PiecesOf(stream.maxWindow, [], chunks))
    ensures !failed ==> stream.segments == PiecesOf(stream.maxWindow, [], chunks)
    ensures failed ==> FailedAt(stream, PiecesOf(stream.maxWindow, [], chunks)) && !AnyHit(stream, stream.segments)
    ensures stream.blockOnMatch ==> out == if failed then Concat(stream.segments) else Concat(chunks)
    ensures !failed && stream.lengthPreserved ==> |out| == |Concat(chunks)|
    ensures stream.lengthPreserved && !stream.blockOnMatch ==> stream.OnlyMatches(Concat(chunks), out)
  {
    hide GoodRegex, SubstitutionStream.Put, SubstitutionStream.Hit, SubstitutionStream.Sent, SubstitutionStream.OnlyMatches,
      SubstitutionStream.Config, PiecesOf, Concat;
    out, failed := Feed(stream, chunks);
    PiecesSpell(stream.maxWindow, [], chunks);
    assert [] + Concat(chunks) == Concat(chunks);
    if stream.blockOnMatch {
      stream.SentPlain(stream.segments);
    }
    if stream.lengthPreserved {
      stream.SentTouches(stream.segments);
    }
  }

  lemma SentNone(stream: SubstitutionStream)
    requires stream.Config()
    ensures stream.Sent([]) == []
  {
  }

  // ---------------------------------------------------------------- what a cut hides

  /** The n bytes from j on lie inside one piece. */
  predicate Inside(pieces: seq<Bytes>, j: nat, n: nat)
  {
    pieces != [] && (j + n <= |pieces[0]| || (j >= |pieces[0]| && Inside(pieces[1..], j - |pieces[0]|, n)))
  }

  /** The buffer is cut a window before the end of some chunk, strictly inside the n bytes from j on; before bytes came earlier. */
  ghost predicate CutInside(maxWindow: nat, before: nat, chunks: seq<Bytes>, j: nat, n: nat)
  {
    exists i :: CutThere(maxWindow, before, chunks, j, n, i)
  }

  ghost predicate CutThere(maxWindow: nat, before: nat, chunks: seq<Bytes>, j: nat, n: nat, i: int)
  {
    0 <= i <= |chunks| && j < before + |Concat(chunks[..i])| - maxWindow < j + n
  }

  lemma CutLater(maxWindow: nat, before: nat, chunks: seq<Bytes>, j: nat, n: nat)
    requires chunks != [] && before <= maxWindow
    ensures CutInside(maxWindow, before, chunks, j, n) <==> CutInside(maxWindow, before + |chunks[0]|, chunks[1..], j, n)
  {
    var rest, after := chunks[1..], before + |chunks[0]|;
    if i :| CutThere(maxWindow, before, chunks, j, n, i) {
      CutSooner(maxWindow, before, chunks, j, n, i);
      assert CutThere(maxWindow, after, rest, j, n, i - 1);
    }
    if i :| CutThere(maxWindow, after, rest, j, n, i) {
      CutSooner(maxWindow, before, chunks, j, n, i + 1);
      assert CutThere(maxWindow, before, chunks, j, n, i + 1);
    }
  }

  lemma CutSooner(maxWindow: nat, before: nat, chunks: seq<Bytes>, j: nat, n: nat, i: nat)
    requires chunks != [] && before <= maxWindow && i <= |chunks|
    ensures CutThere(maxWindow, before, chunks, j, n, i) <==>
      i > 0 && CutThere(maxWindow, before + |chunks[0]|, chunks[1..], j, n, i - 1)
  {
    var front := chunks[..i];
    if i > 0 {
      assert front[0] == chunks[0] && front[1..] == chunks[1..][..i - 1];
    }
  }

  /** Dropping the first m bytes, all before j, changes nothing. */
  lemma CutShift(maxWindow: nat, before: nat, chunks: seq<Bytes>, j: nat, n: nat, m: nat)
    requires m <= j && m <= before
    ensures CutInside(maxWindow, before, chunks, j, n) <==> CutInside(maxWindow, before - m, chunks, j - m, n)
  {
    var before', j' := before - m, j - m;
    if i :| CutThere(maxWindow, before, chunks, j, n, i) {
      assert CutThere(maxWindow, before', chunks, j', n, i);
    }
    if i :| CutThere(maxWindow, before', chunks, j', n, i) {
      assert CutThere(maxWindow, before, chunks, j, n, i);
    }
  }

  /** At most this much has come in before the first cut that is still to come. */
  lemma CutFirst(maxWindow: nat, before: nat, chunks: seq<Bytes>, j: nat, n: nat)
    ensures CutInside(maxWindow, before, chunks, j, n) ==> before - maxWindow < j + n
    ensures j < before - maxWindow < j + n ==> CutInside(maxWindow, before, chunks, j, n)
  {
    assert chunks[..0] == [];
    if j < before - maxWindow < j + n {
      assert CutThere(maxWindow, before, chunks, j, n, 0);
    }
  }

  /** A stretch of the stream lies inside one piece exactly if no cut falls strictly inside it. */
  lemma {:induction false} InsideIffUncut(maxWindow: nat, pending: Bytes, chunks: seq<Bytes>, j: nat, n: nat)
    requires |pending| <= maxWindow && n > 0 && j + n <= |pending| + |Concat(chunks)|
    ensures Inside(PiecesOf(maxWindow, pending, chunks), j, n) <==> !CutInside(maxWindow, |pending|, chunks, j, n)
    decreases |chunks|
  {
    hide CutInside, PiecesOf;
    if chunks == [] {
      NoChunks(maxWindow, |pending|, j, n);
      PiecesEnd(maxWindow, pending);
    } else {
      var c, rest := chunks[0], chunks[1..];
      assert chunks[0..] == chunks;
      PiecesStep(maxWindow, pending, chunks, 0);
      CutLater(maxWindow, |pending|, chunks, j, n);
      hide Inside, Concat;
      if c == [] {
        InsideIffUncut(maxWindow, pending, rest, j, n);
      } else {
        var all := pending + c;
        var cut := Cut(maxWindow, all);
        var later := PiecesOf(maxWindow, all[|cut|..], rest);
        CutFirst(maxWindow, |all|, rest, j, n);
        if cut == [] {
          assert [] + later == later && all[0..] == all;
          InsideIffUncut(maxWindow, all, rest, j, n);
        } else {
          InsideStep(cut, later, j, n);
          if j + n <= |cut| {
            NoneBefore(maxWindow, |all|, rest, j, n);
          } else if j >= |cut| {
            CutShift(maxWindow, |all|, rest, j, n, |cut|);
            InsideIffUncut(maxWindow, all[|cut|..], rest, j - |cut|, n);
          }
        }
      }
    }
  }

  lemma InsideStep(first: Bytes, rest: seq<Bytes>, j: nat, n: nat)
    ensures Inside([first] + rest, j, n) <==> j + n <= |first| || (j >= |first| && Inside(rest, j - |first|, n))
  {
    assert ([first] + rest)[1..] == rest;
  }

  lemma NoChunks(maxWindow: nat, before: nat, j: nat, n: nat)
    requires before <= maxWindow
    ensures !CutInside(maxWindow, before, [], j, n)
  {
  }

  lemma NoneBefore(maxWindow: nat, before: nat, chunks: seq<Bytes>, j: nat, n: nat)
    requires j + n <= before - maxWindow
    ensures !CutInside(maxWindow, before, chunks, j, n)
  {
  }

  /** A text occurs in some piece exactly if it occurs in the stream inside one piece. */
  lemma {:induction false} SeenIff(pieces: seq<Bytes>, p: Bytes)
    requires p != []
    ensures (exists k :: 0 <= k < |pieces| && Occurs(p, pieces[k])) <==> exists j: nat :: SeenAt(pieces, p, j)
  {
    hide SeenAt;
    if pieces == [] {
      NothingSeen(p);
    } else {
      var rest := pieces[1..];
      SeenIff(rest, p);
      forall j: nat
        ensures SeenAt(pieces, p, j) <==> OccursAt(p, pieces[0], j) || (j >= |pieces[0]| && SeenAt(rest, p, j - |pieces[0]|))
      {
        SeenStep(pieces, p, j);
      }
      if k :| 0 <= k < |pieces| && Occurs(p, pieces[k]) {
        if k == 0 {
          var j: nat :| OccursAt(p, pieces[0], j);
          assert SeenAt(pieces, p, j);
        } else {
          assert rest[k - 1] == pieces[k];
          var j: nat :| SeenAt(rest, p, j);
          assert SeenAt(pieces, p, j + |pieces[0]|);
        }
      }
      if j: nat :| SeenAt(pieces, p, j) {
        if !OccursAt(p, pieces[0], j) {
          var k :| 0 <= k < |rest| && Occurs(p, rest[k]);
          assert pieces[k + 1] == rest[k];
        }
      }
    }
  }

  ghost predicate SeenAt(pieces: seq<Bytes>, p: Bytes, j: nat)
  {
    OccursAt(p, Concat(pieces), j) && Inside(pieces, j, |p|)
  }

  lemma NothingSeen(p: Bytes)
    requires p != []
    ensures forall j: nat :: !SeenAt([], p, j)
  {
  }

  lemma SeenStep(pieces: seq<Bytes>, p: Bytes, j: nat)
    requires pieces != [] && p != []
    ensures SeenAt(pieces, p, j) <==>
      OccursAt(p, pieces[0], j) || (j >= |pieces[0]| && SeenAt(pieces[1..], p, j - |pieces[0]|))
  {
    var first, rest := pieces[0], Concat(pieces[1..]);
    var all := first + rest;
    assert Concat(pieces) == all;
    assert forall k | 0 <= k < |rest| :: all[|first| + k] == rest[k];
  }

  /**
   With literal rules only, a blocking run fails exactly if some rule's text occurs in the stream where no cut falls
   strictly inside it; the cuts are a window before the ends of the chunks.
   */
  lemma {:induction false} LiteralHitIff(stream: SubstitutionStream, chunks: seq<Bytes>)
    requires stream.Config() && stream.regexRules == []
    ensures AnyHit(stream, PiecesOf(stream.maxWindow, [], chunks)) <==>
      exists r, j: nat :: 0 <= r < |stream.rules| && Uncut(stream.maxWindow, chunks, stream.rules[r].search, j)
  {
    hide PiecesOf, Occurs, SeenAt, Uncut;
    var pieces, rules := PiecesOf(stream.maxWindow, [], chunks), stream.rules;
    forall r, j: nat | 0 <= r < |rules|
      ensures SeenAt(pieces, rules[r].search, j) <==> Uncut(stream.maxWindow, chunks, rules[r].search, j)
    {
      SeenUncut(stream.maxWindow, chunks, rules[r].search, j);
    }
    forall r | 0 <= r < |rules|
      ensures (exists k :: 0 <= k < |pieces| && Occurs(rules[r].search, pieces[k])) <==>
        exists j: nat :: Uncut(stream.maxWindow, chunks, rules[r].search, j)
    {
      SeenIff(pieces, rules[r].search);
    }
    if k :| 0 <= k < |pieces| && stream.Hit(pieces[k]) {
      var r :| 0 <= r < |rules| && Occurs(rules[r].search, pieces[k]);
    }
    if r, j: nat :| 0 <= r < |rules| && Uncut(stream.maxWindow, chunks, rules[r].search, j) {
      var k :| 0 <= k < |pieces| && Occurs(rules[r].search, pieces[k]);
      assert stream.Hit(pieces[k]);
    }
  }

  /** The text occurs in the stream at j and no cut falls strictly inside it. */
  ghost predicate Uncut(maxWindow: nat, chunks: seq<Bytes>, p: Bytes, j: nat)
  {
    OccursAt(p, Concat(chunks), j) && !CutInside(maxWindow, 0, chunks, j, |p|)
  }

  lemma SeenUncut(maxWindow: nat, chunks: seq<Bytes>, p: Bytes, j: nat)
    requires p != []
    ensures SeenAt(PiecesOf(maxWindow, [], chunks), p, j) <==> Uncut(maxWindow, chunks, p, j)
  {
    hide PiecesOf, CutInside, Inside;
    PiecesSpell(maxWindow, [], chunks);
    assert [] + Concat(chunks) == Concat(chunks);
    if OccursAt(p, Concat(chunks), j) {
      InsideIffUncut(maxWindow, [], chunks, j, |p|);
    }
  }

  lemma StraddlerIsCut()
    ensures Concat([[1, 2, 3], [4]]) == [1, 2, 3, 4] && forall j: nat :: !Uncut(2, [[1, 2, 3], [4]], [2, 3], j)
  {
    var chunks: seq<Bytes>, p: Bytes := [[1, 2, 3], [4]], [2, 3];
    assert chunks[1..] == [[4]] && chunks[1..][1..] == [] && chunks[..2] == chunks;
    var t := Concat(chunks);
    assert t == [1, 2, 3] + ([4] + []) == [1, 2, 3, 4];
    forall j: nat
      ensures !Uncut(2, chunks, p, j)
    {
      if OccursAt(p, t, j) {
        assert t[j + 0] == p[0] == 2;
        assert CutThere(2, 0, chunks, j, 2, 2);
      }
    }
  }

  /** A text to be blocked that leaves: the window NewFilter chooses for it is its length, and a cut falls inside it. */
  method StraddlerLeaves() returns (out: Bytes, failed: bool)
    ensures !failed && out == [1, 2, 3, 4] && OccursAt([2, 3], out, 1)
  {
    hide GoodRegex, SubstitutionStream.Hit, SubstitutionStream.Sent, SubstitutionStream.OnlyMatches, PiecesOf, Concat, Uncut, AnyHit;
    var rules := [Literal([2, 3], [])];
    var window := WindowFor(rules, []);
    assert |rules[0].search| == 2;
    var stream := new SubstitutionStream(rules, [], window, false, true);
    LiteralHitIff(stream, [[1, 2, 3], [4]]);
    StraddlerIsCut();
    out, failed := SubstituteAll(stream, [[1, 2, 3], [4]]);
    assert [1, 2, 3, 4][1..3] == [2, 3];
  }

  // ---------------------------------------------------------------- a single match in a stream

  lemma {:induction false} SentCons(stream: SubstitutionStream, first: Bytes, rest: seq<Bytes>)
    requires stream.Config()
    ensures stream.Sent([first] + rest) == stream.Put(first) + stream.Sent(rest)
    decreases |rest|
  {
    hide SubstitutionStream.Put, SubstitutionStream.Config;
    var all := [first] + rest;
    if rest == [] {
      assert all[..0] == [] && all[0] == first;
      SentNone(stream);
    } else {
      var n := |rest| - 1;
      assert all[..|all| - 1] == [first] + rest[..n] && all[|all| - 1] == rest[n];
      SentCons(stream, first, rest[..n]);
    }
  }

  /** Pieces that go out as they are. */
  lemma {:induction false} SentUnchanged(stream: SubstitutionStream, pieces: seq<Bytes>)
    requires stream.Config() && forall k | 0 <= k < |pieces| :: stream.Put(pieces[k]) == pieces[k]
    ensures stream.Sent(pieces) == Concat(pieces)
  {
    hide SubstitutionStream.Put, SubstitutionStream.Config;
    if pieces != [] {
      var front, last := pieces[..|pieces| - 1], pieces[|pieces| - 1];
      SentUnchanged(stream, front);
      assert pieces == front + [last];
      ConcatSnoc(front, last);
    }
  }

  /** All pieces but one go out as they are: the stream comes out with that piece rewritten in its place. */
  lemma {:induction false} OnePieceChanges(stream: SubstitutionStream, pieces: seq<Bytes>, k: nat)
    requires stream.Config() && k < |pieces|
    requires forall i | 0 <= i < |pieces| && i != k :: stream.Put(pieces[i]) == pieces[i]
    ensures stream.Sent(pieces) == Concat(pieces[..k]) + stream.Put(pieces[k]) + Concat(pieces[k + 1..])
    decreases |pieces|
  {
    hide SubstitutionStream.Put, SubstitutionStream.Config, SubstitutionStream.Sent, Concat;
    var first, rest := pieces[0], pieces[1..];
    assert pieces == [first] + rest;
    SentCons(stream, first, rest);
    NothingSpelled();
    if k == 0 {
      SentUnchanged(stream, rest);
      assert pieces[..0] == [];
    } else {
      assert forall i | 0 <= i < |rest| :: rest[i] == pieces[i + 1];
      OnePieceChanges(stream, rest, k - 1);
      assert pieces[..k] == [first] + rest[..k - 1] && rest[k..] == pieces[k + 1..];
      ConcatCons(first, rest[..k - 1]);
    }
  }

  lemma ConcatCons(first: Bytes, rest: seq<Bytes>)
    ensures Concat([first] + rest) == first + Concat(rest)
  {
    assert ([first] + rest)[1..] == rest;
  }

  /** The piece around an occurrence that lies inside one. */
  lemma {:induction false} PieceAround(pieces: seq<Bytes>, j: nat, n: nat) returns (k: nat)
    requires Inside(pieces, j, n) && n > 0
    ensures k < |pieces| && |Concat(pieces[..k])| <= j && j + n <= |Concat(pieces[..k])| + |pieces[k]|
    decreases |pieces|
  {
    if j + n <= |pieces[0]| {
      k := 0;
      assert pieces[..0] == [];
    } else {
      var rest := pieces[1..];
      var i := PieceAround(rest, j - |pieces[0]|, n);
      k := i + 1;
      assert pieces[..k] == [pieces[0]] + rest[..i] && rest[i] == pieces[k];
      ConcatCons(pieces[0], rest[..i]);
    }
  }

  lemma ConcatAround(pieces: seq<Bytes>, k: nat)
    requires k < |pieces|
    ensures Concat(pieces) == Concat(pieces[..k]) + pieces[k] + Concat(pieces[k + 1..])
  {
    hide Concat;
    SplitAt(pieces, k);
    ConcatThree(pieces[..k], pieces[k], pieces[k + 1..]);
  }

  lemma SplitAt(pieces: seq<Bytes>, k: nat)
    requires k < |pieces|
    ensures pieces == pieces[..k] + ([pieces[k]] + pieces[k + 1..])
  {
  }

  lemma ConcatThree(front: seq<Bytes>, piece: Bytes, back: seq<Bytes>)
    ensures Concat(front + ([piece] + back)) == Concat(front) + piece + Concat(back)
  {
    hide Concat;
    ConcatAppend(front, [piece] + back);
    ConcatCons(piece, back);
    Associates(Concat(front), piece, Concat(back));
  }

  lemma Associates(a: Bytes, b: Bytes, c: Bytes)
    ensures a + (b + c) == a + b + c
  {
  }

  /** An occurrence in a piece is one in the stream. */
  lemma OccursInStream(pieces: seq<Bytes>, k: nat, p: Bytes, i: int)
    requires k < |pieces| && OccursAt(p, pieces[k], i)
    ensures OccursAt(p, Concat(pieces), |Concat(pieces[..k])| + i)
  {
    ConcatAround(pieces, k);
    var a, b, all := Concat(pieces[..k]), Concat(pieces[k + 1..]), Concat(pieces);
    hide Concat;
    forall m | 0 <= m < |p|
      ensures all[|a| + i + m] == p[m]
    {
      assert all[|a| + (i + m)] == pieces[k][i + m];
    }
  }

  /** One literal rule, rewriting: nothing to block on, no regex. */
  ghost predicate OneRule(stream: SubstitutionStream, r: Literal)
  {
    stream.rules == [r] && r.search != [] && stream.regexRules == [] && !stream.blockOnMatch
  }

  lemma OneRulePut(stream: SubstitutionStream, r: Literal, t: Bytes)
    requires OneRule(stream, r)
    ensures stream.Config() && stream.Put(t) == LiteralsApplied([r], stream.lengthPreserved, t, 1)
  {
    hide LiteralsApplied;
  }

  /**
   A text that occurs once in the stream, with no cut inside it: whatever the chunks, the bytes before it, what stands
   for it, the bytes after it.
   */
  lemma OneSubstituted(stream: SubstitutionStream, r: Literal, chunks: seq<Bytes>, j: nat) returns (body: Bytes)
    requires OneRule(stream, r) && Uncut(stream.maxWindow, chunks, r.search, j)
    requires forall i | OccursAt(r.search, Concat(chunks), i) :: i == j
    ensures stream.Config() && j + |r.search| <= |Concat(chunks)| && StandsFor(stream.lengthPreserved, |r.search|, r.replace, body)
    ensures stream.Sent(PiecesOf(stream.maxWindow, [], chunks))
      == Concat(chunks)[..j] + body + Concat(chunks)[j + |r.search|..]
  {
    hide PiecesOf, Occurs, Concat, Inside, CutInside, LiteralsApplied, SubstitutionStream.Put, SubstitutionStream.Sent, StandsFor;
    var p, pieces, all := r.search, PiecesOf(stream.maxWindow, [], chunks), Concat(chunks);
    PiecesSpell(stream.maxWindow, [], chunks);
    assert [] + all == all;
    OccursBound(p, all, j);
    InsideIffUncut(stream.maxWindow, [], chunks, j, |p|);
    var k := PieceAround(pieces, j, |p|);
    ConcatAround(pieces, k);
    OneRulePut(stream, r, pieces[k]);
    forall i | 0 <= i < |pieces| && i != k
      ensures stream.Put(pieces[i]) == pieces[i]
    {
      OtherPieces(pieces, p, j, k, i);
      OneRulePut(stream, r, pieces[i]);
      NoLiteral(r, stream.lengthPreserved, pieces[i]);
    }
    OnePieceChanges(stream, pieces, k);
    body := ThatPiece(stream.lengthPreserved, r, pieces, k, j);
  }

  lemma OtherPieces(pieces: seq<Bytes>, p: Bytes, j: nat, k: nat, i: nat)
    requires p != [] && k < |pieces| && i < |pieces| && i != k
    requires |Concat(pieces[..k])| <= j && j + |p| <= |Concat(pieces[..k])| + |pieces[k]|
    requires forall m | OccursAt(p, Concat(pieces), m) :: m == j
    ensures !Occurs(p, pieces[i])
  {
    hide Concat;
    if m :| OccursAt(p, pieces[i], m) {
      OccursInStream(pieces, i, p, m);
      OccursBound(p, pieces[i], m);
      Apart(pieces, if i < k then i else k, if i < k then k else i);
    }
  }

  /** A piece ends before a later one begins. */
  lemma {:induction false} Apart(pieces: seq<Bytes>, i: nat, k: nat)
    requires i < k < |pieces|
    ensures |Concat(pieces[..i])| + |pieces[i]| <= |Concat(pieces[..k])|
  {
    hide Concat;
    assert pieces[..k] == pieces[..k][..i] + ([pieces[i]] + pieces[i + 1..k]) && pieces[..k][..i] == pieces[..i];
    ConcatAppend(pieces[..i], [pieces[i]] + pieces[i + 1..k]);
    ConcatCons(pieces[i], pieces[i + 1..k]);
  }

  /** Inside its piece the text stands between what the stream has before and after it. */
  lemma ThatPiece(preserve: bool, r: Literal, pieces: seq<Bytes>, k: nat, j: nat) returns (body: Bytes)
    requires r.search != [] && k < |pieces| && OccursAt(r.search, Concat(pieces), j)
    requires |Concat(pieces[..k])| <= j && j + |r.search| <= |Concat(pieces[..k])| + |pieces[k]|
    requires forall m | OccursAt(r.search, Concat(pieces), m) :: m == j
    ensures StandsFor(preserve, |r.search|, r.replace, body)
    ensures Concat(pieces[..k]) + LiteralsApplied([r], preserve, pieces[k], 1) + Concat(pieces[k + 1..])
      == Concat(pieces)[..j] + body + Concat(pieces)[j + |r.search|..]
  {
    hide Concat, Occurs, LiteralsApplied, StandsFor;
    ConcatAround(pieces, k);
    var p, piece, head, tail := r.search, pieces[k], Concat(pieces[..k]), Concat(pieces[k + 1..]);
    var i := j - |head|;
    var a, b := piece[..i], piece[i + |p|..];
    Around(head, piece, tail, p, j);
    forall m | 0 <= m < |a|
      ensures !OccursAt(p, a + p + b, m)
    {
      if OccursAt(p, piece, m) {
        OccursInStream(pieces, k, p, m);
      }
    }
    NotBehind(pieces, p, j, k);
    body := OneLiteral(r, preserve, a, b);
    Regroup(head, a, body, b, tail);
  }

  lemma Around(head: Bytes, piece: Bytes, tail: Bytes, p: Bytes, j: nat)
    requires OccursAt(p, head + piece + tail, j) && |head| <= j && j + |p| <= |head| + |piece|
    ensures var i, all := j - |head|, head + piece + tail;
      && piece == piece[..i] + p + piece[i + |p|..]
      && all[..j] == head + piece[..i] && all[j + |p|..] == piece[i + |p|..] + tail
  {
    var i, all := j - |head|, head + piece + tail;
    assert all[j..j + |p|] == p;
    assert all[j..j + |p|] == piece[i..i + |p|];
  }

  lemma Regroup(head: Bytes, a: Bytes, body: Bytes, b: Bytes, tail: Bytes)
    ensures head + (a + body + b) + tail == (head + a) + body + (b + tail)
  {
  }

  lemma NotBehind(pieces: seq<Bytes>, p: Bytes, j: nat, k: nat)
    requires p != [] && k < |pieces|
    requires |Concat(pieces[..k])| <= j && j + |p| <= |Concat(pieces[..k])| + |pieces[k]|
    requires forall m | OccursAt(p, Concat(pieces), m) :: m == j
    ensures !Occurs(p, pieces[k][j - |Concat(pieces[..k])| + |p|..])
  {
    hide Concat;
    var n := j - |Concat(pieces[..k])| + |p|;
    if m :| OccursAt(p, pieces[k][n..], m) {
      OccursShift(p, pieces[k], n, m);
      OccursInStream(pieces, k, p, n + m);
    }
  }

  /** A regex that matches one span of one piece and nothing else, lengths kept. */
  lemma OneSpanSubstituted(stream: SubstitutionStream, r: Regex, pieces: seq<Bytes>, k: nat, sp: Span) returns (body: Bytes)
    requires stream.Config() && stream.rules == [] && stream.regexRules == [r] && !stream.blockOnMatch && stream.lengthPreserved
    requires k < |pieces| && r.find(pieces[k]) == [sp] && forall i | 0 <= i < |pieces| && i != k :: r.find(pieces[i]) == []
    ensures sp.lo <= sp.hi <= |pieces[k]| && StandsFor(true, sp.hi - sp.lo, r.expand(pieces[k], sp), body)
    ensures stream.Sent(pieces) == Concat(pieces[..k]) + (pieces[k][..sp.lo] + body + pieces[k][sp.hi..]) + Concat(pieces[k + 1..])
  {
    hide Concat, SubstitutionStream.Sent, GoodRegex, StandsFor;
    assert stream.regexRules[0] == r;
    forall i | 0 <= i < |pieces|
      ensures stream.Put(pieces[i]) == RegexApplied(r, true, pieces[i])
    {
      OneRegexPut(stream, r, pieces[i]);
    }
    OnePieceChanges(stream, pieces, k);
    body := OneSpan(r, pieces[k], sp);
  }

  lemma OneRegexPut(stream: SubstitutionStream, r: Regex, t: Bytes)
    requires stream.Config() && stream.rules == [] && stream.regexRules == [r] && !stream.blockOnMatch && GoodRegex(r)
    ensures stream.Put(t) == RegexApplied(r, stream.lengthPreserved, t)
  {
    hide RegexApplied, GoodRegex;
    assert LiteralsApplied([], stream.lengthPreserved, t, 0) == t;
    assert RegexesApplied([r], stream.lengthPreserved, t, 0) == t;
  }

  /** Literals come first: a regex is asked about the text the literal rule has left. */
  lemma LiteralThenRegex(stream: SubstitutionStream, r: Literal, e: Regex, a: Bytes, b: Bytes) returns (t: Bytes)
    requires stream.Config() && stream.rules == [r] && stream.regexRules == [e] && !stream.blockOnMatch && r.search != [] && GoodRegex(e)
    requires !Occurs(r.search, b) && forall j | 0 <= j < |a| :: !OccursAt(r.search, a + r.search + b, j)
    ensures exists body :: StandsFor(stream.lengthPreserved, |r.search|, r.replace, body) && t == a + body + b
    ensures stream.Put(a + r.search + b) == RegexApplied(e, stream.lengthPreserved, t)
  {
    hide RegexApplied, GoodRegex, LiteralsApplied, StandsFor, Occurs;
    var body := OneLiteral(r, stream.lengthPreserved, a, b);
    t := a + body + b;
    assert RegexesApplied([e], stream.lengthPreserved, t, 0) == t;
  }
}
