/** Byte strings: the vocabulary every streaming filter shares. */
module Bytes {

  type byte = b: int | 0 <= b < 256

  type Bytes = seq<byte>

  const STAR := '*' as int
  const LETTER_A: byte := 'a' as int
  const LETTER_B: byte := 'b' as int

  /** lowerASCII. */
  function Lower(b: byte): (r: byte)
  {
    if 'A' as int <= b <= 'Z' as int then b + 32 else b
  }

  function Fold(s: Bytes): (r: Bytes)
    ensures |r| == |s|
    ensures forall i | 0 <= i < |s| :: r[i] == Lower(s[i])
  {
    seq(|s|, i requires 0 <= i < |s| => Lower(s[i]))
  }

  // ---------------------------------------------------------------- what folding means

  const UPPER := "ABCDEFGHIJKLMNOPQRSTUVWXYZ"
  const LOWER := "abcdefghijklmnopqrstuvwxyz"

  /** The bytes of an ASCII text. */
  function Ascii(s: string): (r: Bytes)
    requires forall i | 0 <= i < |s| :: s[i] as int < 128
    ensures |r| == |s| && forall i | 0 <= i < |s| :: r[i] == s[i] as int
  {
    seq(|s|, i requires 0 <= i < |s| => s[i] as int)
  }

  /** An upper-case letter and the same letter in lower case. */
  predicate Letters(a: byte, b: byte)
  {
    exists i | 0 <= i < 26 :: UPPER[i] as int == a && LOWER[i] as int == b
  }

  /** The same byte, or the same letter in either case. */
  predicate Twin(a: byte, b: byte)
  {
    a == b || Letters(a, b) || Letters(b, a)
  }

  predicate Twins(s: Bytes, t: Bytes)
  {
    |s| == |t| && forall i | 0 <= i < |s| :: Twin(s[i], t[i])
  }

  lemma Alphabet(i: int)
    requires 0 <= i < 26
    ensures UPPER[i] as int == 65 + i && LOWER[i] as int == 97 + i
  {
  }

  lemma LettersAre(a: byte, b: byte)
    ensures Letters(a, b) <==> 65 <= a < 91 && b == a + 32
  {
    if i :| 0 <= i < 26 && UPPER[i] as int == a && LOWER[i] as int == b {
      Alphabet(i);
    }
    if 65 <= a < 91 && b == a + 32 {
      Alphabet(a - 65);
    }
  }

  /** Lower takes each capital to its small letter, leaves every other byte alone, and so tells exactly letters in either case as one. */
  lemma LowerMeans(a: byte, b: byte)
    ensures Letters(a, b) ==> Lower(a) == b
    ensures (forall c: byte :: !Letters(a, c)) ==> Lower(a) == a
    ensures Lower(a) == Lower(b) <==> Twin(a, b)
  {
    LettersAre(a, b);
    LettersAre(b, a);
    if 65 <= a < 91 {
      LettersAre(a, a + 32);
    }
  }

  lemma FoldMeans(s: Bytes, t: Bytes)
    ensures Fold(s) == Fold(t) <==> Twins(s, t)
  {
    hide Twin, Lower;
    forall i | 0 <= i < |s| && i < |t|
      ensures Lower(s[i]) == Lower(t[i]) <==> Twin(s[i], t[i])
    {
      LowerMeans(s[i], t[i]);
    }
    if Fold(s) == Fold(t) {
      assert |s| == |Fold(s)| == |Fold(t)| == |t|;
      assert forall i | 0 <= i < |s| :: Fold(s)[i] == Lower(s[i]) && Fold(t)[i] == Lower(t[i]);
    }
  }

  lemma SameTwin(b: byte)
    ensures Twin(b, b)
  {
  }

  lemma TwinsLength(s: Bytes, t: Bytes)
    requires Twins(s, t)
    ensures |s| == |t|
  {
  }

  lemma TwinsJoin(a: Bytes, b: Bytes, c: Bytes, d: Bytes)
    requires Twins(a, b) && Twins(c, d)
    ensures Twins(a + c, b + d)
  {
    hide Twin;
  }

  lemma TwinsSplit(a: Bytes, b: Bytes, n: nat)
    requires Twins(a, b) && n <= |a|
    ensures n <= |b| && Twins(a[..n], b[..n]) && Twins(a[n..], b[n..])
  {
    hide Twin;
  }

  lemma FoldConcat(s: Bytes, t: Bytes)
    ensures Fold(s + t) == Fold(s) + Fold(t)
  {
  }

  lemma SplitLast<T>(t: seq<T>)
    requires t != []
    ensures t == t[..|t| - 1] + [t[|t| - 1]]
  {
  }

  lemma SnocInjective<T>(s: seq<T>, x: T, t: seq<T>, y: T)
    ensures s + [x] == t + [y] <==> s == t && x == y
  {
    if s + [x] == t + [y] {
      assert s == (s + [x])[..|s|] == (t + [y])[..|t|] == t;
      assert x == (s + [x])[|s|];
    }
  }

  ghost predicate IsSuffix(u: Bytes, t: Bytes)
  {
    |u| <= |t| && t[|t| - |u|..] == u
  }

  /** u occurs in t at offset i. */
  ghost predicate OccursAt(u: Bytes, t: Bytes, i: int)
  {
    0 <= i && i + |u| <= |t| && forall m | 0 <= m < |u| :: t[i + m] == u[m]
  }

  ghost predicate Occurs(u: Bytes, t: Bytes)
  {
    exists i :: OccursAt(u, t, i)
  }

  /** asciiEqualFoldBytes at offset i of t. */
  predicate FoldsAt(p: Bytes, t: Bytes, i: int)
  {
    0 <= i && i + |p| <= |t| && forall m | 0 <= m < |p| :: Lower(t[i + m]) == p[m]
  }

  /** A text without capitals is found exactly where the stream has it in either case. */
  lemma FoldsMeans(p: Bytes, t: Bytes, i: int)
    requires forall m | 0 <= m < |p| :: Lower(p[m]) == p[m]
    ensures FoldsAt(p, t, i) <==> 0 <= i && i + |p| <= |t| && Twins(t[i..i + |p|], p)
  {
    hide Twin, Lower;
    if 0 <= i && i + |p| <= |t| {
      forall m | 0 <= m < |p|
        ensures Lower(t[i + m]) == p[m] <==> Twin(t[i..i + |p|][m], p[m])
      {
        LowerMeans(t[i + m], p[m]);
      }
    }
  }

  /** In two streams that differ in case only, everything is found at the same places. */
  lemma FoldsAlike(p: Bytes, s: Bytes, t: Bytes, i: int)
    requires Twins(s, t)
    ensures FoldsAt(p, s, i) <==> FoldsAt(p, t, i)
  {
    hide Twin, Lower;
    forall k | 0 <= k < |s|
      ensures Lower(s[k]) == Lower(t[k])
    {
      LowerMeans(s[k], t[k]);
    }
  }

  /** The stream that a list of chunks spells. */
  function Concat(chunks: seq<Bytes>): (r: Bytes)
  {
    if chunks == [] then [] else chunks[0] + Concat(chunks[1..])
  }

  lemma NothingSpelled()
    ensures Concat([]) == []
  {
  }

  lemma {:induction false} ConcatAppend(a: seq<Bytes>, b: seq<Bytes>)
    ensures Concat(a + b) == Concat(a) + Concat(b)
  {
    if a == [] {
      assert a + b == b;
    } else {
      assert (a + b)[1..] == a[1..] + b;
      ConcatAppend(a[1..], b);
    }
  }

  lemma ConcatSnoc(a: seq<Bytes>, c: Bytes)
    ensures Concat(a + [c]) == Concat(a) + c
  {
    ConcatAppend(a, [c]);
  }

  /** Two streams cut alike that differ in case only. */
  predicate TwinChunks(a: seq<Bytes>, b: seq<Bytes>)
  {
    |a| == |b| && forall i | 0 <= i < |a| :: Twins(a[i], b[i])
  }
}
