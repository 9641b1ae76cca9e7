/**
 The resumable scanner over a compiled phrase filter, and what it promises about a whole
 stream: where it blocks does not depend on how the stream was cut into chunks.

 Two readings are kept apart: the int32 scanner, and the ideal one that adds scores as
 integers. Where they part, for any weights and any threshold, is stated exactly.
 */
module PhraseStreams {

  import opened Bytes
  import opened PhraseAutomaton

  // ---------------------------------------------------------------- the ideal reading

  /** An exception phrase ends at or before the end of s. */
  ghost predicate ExceptedBy(es: seq<Entry>, s: Bytes)
  {
    exists k :: 0 <= k <= |s| && ExceptAt(es, Fold(s[..k]))
  }

  /** The score of every phrase occurrence in s, added up. */
  ghost function Cumulative(es: seq<Entry>, s: Bytes): int
  {
    if s == [] then 0 else Cumulative(es, s[..|s| - 1]) + ScoreAt(es, Fold(s))
  }

  ghost predicate Blocks(es: seq<Entry>, threshold: int, s: Bytes)
  {
    && !ExceptedBy(es, s)
    && (HardAt(es, Fold(s)) || (threshold > 0 && Cumulative(es, s) >= threshold))
  }

  /** The least offset of s at which the filter must block. */
  ghost predicate FirstBlock(es: seq<Entry>, threshold: int, s: Bytes, i: int)
  {
    && 0 <= i <= |s| && Blocks(es, threshold, s[..i])
    && forall j | 0 <= j < i :: !Blocks(es, threshold, s[..j])
  }

  // ---------------------------------------------------------------- the int32 reading

  ghost function Points32(es: seq<Entry>, s: Bytes): int
  {
    Wrap32(ScoreAt(es, Fold(s)))
  }

  /** The int32 accumulator after s. */
  ghost function Score32(es: seq<Entry>, s: Bytes): int
  {
    if s == [] then 0
    else
      var before := Score32(es, s[..|s| - 1]);
      if ExceptedBy(es, s) || Points32(es, s) <= 0 then before else Wrap32(before + Points32(es, s))
  }

  ghost predicate Blocks32(es: seq<Entry>, threshold: int, s: Bytes)
  {
    && !ExceptedBy(es, s)
    && (HardAt(es, Fold(s)) || ScoreBlocks32(es, threshold, s))
  }

  ghost predicate ScoreBlocks32(es: seq<Entry>, threshold: int, s: Bytes)
  {
    Points32(es, s) > 0 && Wrap32(threshold) > 0 && Score32(es, s) >= Wrap32(threshold)
  }

  ghost predicate FirstBlock32(es: seq<Entry>, threshold: int, s: Bytes, i: int)
  {
    && 0 <= i <= |s| && Blocks32(es, threshold, s[..i])
    && forall j | 0 <= j < i :: !Blocks32(es, threshold, s[..j])
  }

  ghost predicate NoBlock32(es: seq<Entry>, threshold: int, s: Bytes)
  {
    forall j | 0 <= j <= |s| :: !Blocks32(es, threshold, s[..j])
  }

  // ---------------------------------------------------------------- one byte

  lemma {:induction false} ExceptedSnoc(es: seq<Entry>, s: Bytes, b: byte)
    ensures ExceptedBy(es, s + [b]) <==> ExceptedBy(es, s) || ExceptAt(es, Fold(s + [b]))
  {
    var t := s + [b];
    assert t[..|t|] == t;
    assert forall k | 0 <= k <= |s| :: t[..k] == s[..k];
    if ExceptedBy(es, s) {
      var k :| 0 <= k <= |s| && ExceptAt(es, Fold(s[..k]));
    }
  }

  lemma NoneExcepted(es: seq<Entry>)
    ensures !ExceptedBy(es, [])
  {
  }

  lemma NothingBlocks(es: seq<Entry>, threshold: int)
    ensures !Blocks32(es, threshold, []) && !Blocks(es, threshold, [])
  {
  }

  /** One table load moves from the state of s to the state of s + [b], whose values are known. */
  lemma {:induction false} ScanStep(nodes: seq<AhoNode>, id: Index, es: seq<Entry>, s: Bytes, b: byte)
    requires IsAutomaton(nodes, id, es)
    ensures Walk(nodes, Fold(s)) < |nodes|
    ensures var n := nodes[Walk(nodes, Fold(s))].next[Lower(b)];
      n == Walk(nodes, Fold(s + [b])) && n < |nodes| && FullValues(es, nodes[n], Fold(s + [b]))
  {
    WalkValues(nodes, id, es, Fold(s));
    WalkValues(nodes, id, es, Fold(s + [b]));
    FoldSnoc(s, b);
  }

  lemma FoldSnoc(s: Bytes, b: byte)
    ensures Fold(s + [b]) == Fold(s) + [Lower(b)]
  {
  }

  lemma Score32Snoc(es: seq<Entry>, s: Bytes, b: byte)
    ensures Score32(es, s + [b]) ==
      if ExceptedBy(es, s + [b]) || Points32(es, s + [b]) <= 0 then Score32(es, s)
      else Wrap32(Score32(es, s) + Points32(es, s + [b]))
  {
    hide ExceptedBy, Points32;
  }

  lemma {:induction false} NoBlockSnoc(es: seq<Entry>, threshold: int, s: Bytes, b: byte)
    requires NoBlock32(es, threshold, s) && !Blocks32(es, threshold, s + [b])
    ensures NoBlock32(es, threshold, s + [b])
  {
    var t := s + [b];
    assert t[..|t|] == t;
    forall j | 0 <= j <= |t| ensures !Blocks32(es, threshold, t[..j]) {
      if j < |t| {
        assert t[..j] == s[..j];
      }
    }
  }

  lemma {:induction false} FirstBlockSnoc(es: seq<Entry>, threshold: int, s: Bytes, b: byte, rest: Bytes)
    requires NoBlock32(es, threshold, s) && Blocks32(es, threshold, s + [b])
    ensures FirstBlock32(es, threshold, s + [b] + rest, |s| + 1)
  {
    var t := s + [b] + rest;
    assert forall j | 0 <= j <= |s| :: t[..j] == s[..j];
  }

  // ---------------------------------------------------------------- the scanner

  datatype BlockType = NotBlocked | PhraseBlock | ScoreBlock

  /** The scanner's registers after reading s. */
  ghost predicate At(nodes: seq<AhoNode>, es: seq<Entry>, s: Bytes, node: nat, score: int, excepted: bool)
  {
    node == Walk(nodes, Fold(s)) && score == Score32(es, s) && excepted == ExceptedBy(es, s)
  }

  /** Each register's next value, and that the scanner's two tests decide Blocks32. */
  lemma {:induction false} AtStep(nodes: seq<AhoNode>, id: Index, es: seq<Entry>, threshold: int, s: Bytes, node: nat, score: int, excepted: bool, b: byte)
    requires IsAutomaton(nodes, id, es) && At(nodes, es, s, node, score, excepted)
    ensures node < |nodes| && nodes[node].next[Lower(b)] < |nodes|
    ensures
      var current := nodes[nodes[node].next[Lower(b)]];
      var excepted' := excepted || current.excpt;
      var score' := if excepted' || current.score <= 0 then score else Wrap32(score + current.score);
      && At(nodes, es, s + [b], nodes[node].next[Lower(b)], score', excepted')
      && (ScoreBlocks32(es, threshold, s + [b]) <==>
          current.score > 0 && Wrap32(threshold) > 0 && score' >= Wrap32(threshold))
      && current.hard == HardAt(es, Fold(s + [b]))
      && (current.hard || current.score > 0 ==> current.phrase != [])
      && IsSuffix(current.phrase, Fold(s + [b]))
  {
    hide HardAt, ExceptAt, AnyAt, ScoreAt, ExceptedBy, Score32, Walk, IsAutomaton, Fold, IsSuffix;
    ScanStep(nodes, id, es, s, b);
    ExceptedSnoc(es, s, b);
    Score32Snoc(es, s, b);
    PhrasePresent(es, Fold(s + [b]));
  }

  /** The scanner's registers, and how a scan ends: at the end of the chunk or after the byte that blocks. */
  datatype Registers = Registers(node: nat, score: int, excepted: bool)

  datatype Scan = Through(regs: Registers) | Halt(regs: Registers, len: nat)

  /** The bytes of a chunk from i on, one after the other (a table without the node asked for is not a finished one). */
  function ScanFrom(nodes: seq<AhoNode>, threshold: int, r: Registers, chunk: Bytes, i: nat): (s: Scan)
    ensures s.Halt? ==> i < s.len <= |chunk|
    decreases |chunk| - i
  {
    if i >= |chunk| || r.node >= |nodes| || nodes[r.node].next[Lower(chunk[i])] >= |nodes| then Through(r)
    else
      var node := nodes[r.node].next[Lower(chunk[i])];
      var current := nodes[node];
      if r.excepted || current.excpt then ScanFrom(nodes, threshold, Registers(node, r.score, true), chunk, i + 1)
      else if current.hard then Halt(Registers(node, r.score, false), i + 1)
      else if current.score <= 0 then ScanFrom(nodes, threshold, Registers(node, r.score, false), chunk, i + 1)
      else
        var score := Wrap32(r.score + current.score);
        if Wrap32(threshold) > 0 && score >= Wrap32(threshold) then Halt(Registers(node, score, false), i + 1)
        else ScanFrom(nodes, threshold, Registers(node, score, false), chunk, i + 1)
  }

  function ScanChunk(nodes: seq<AhoNode>, threshold: int, r: Registers, chunk: Bytes): (s: Scan)
    ensures s.Halt? ==> 0 < s.len <= |chunk|
  {
    if |nodes| <= 1 || chunk == [] then Through(r) else ScanFrom(nodes, threshold, r, chunk, 0)
  }

  /** A scan goes through exactly if nothing blocks yet, and otherwise ends at the first block. */
  lemma {:induction false} ScanFromIs(nodes: seq<AhoNode>, id: Index, es: seq<Entry>, threshold: int, s: Bytes, r: Registers, chunk: Bytes, i: nat)
    requires IsAutomaton(nodes, id, es) && i <= |chunk| && NoBlock32(es, threshold, s + chunk[..i])
    requires At(nodes, es, s + chunk[..i], r.node, r.score, r.excepted)
    ensures match ScanFrom(nodes, threshold, r, chunk, i)
      case Through(r') => NoBlock32(es, threshold, s + chunk) && At(nodes, es, s + chunk, r'.node, r'.score, r'.excepted)
      case Halt(_, n) => i < n <= |chunk| && FirstBlock32(es, threshold, s + chunk, |s| + n)
    decreases |chunk| - i
  {
    hide HardAt, ExceptAt, AnyAt, ScoreAt, ExceptedBy, Score32, Walk, NoBlock32, FirstBlock32, ScoreBlocks32, IsAutomaton, IsSuffix, Fold;
    if i == |chunk| {
      assert chunk[..i] == chunk;
    } else {
      var t, b := s + chunk[..i], chunk[i];
      assert s + chunk[..i + 1] == t + [b] && s + chunk == t + [b] + chunk[i + 1..];
      AtStep(nodes, id, es, threshold, t, r.node, r.score, r.excepted, b);
      BlockHistory(es, threshold, t, b, chunk[i + 1..]);
      var node := nodes[r.node].next[Lower(b)];
      var excepted := r.excepted || nodes[node].excpt;
      var score := if excepted || nodes[node].score <= 0 then r.score else Wrap32(r.score + nodes[node].score);
      if !Blocks32(es, threshold, t + [b]) {
        ScanFromIs(nodes, id, es, threshold, s, Registers(node, score, excepted), chunk, i + 1);
      }
    }
  }

  lemma PhrasePresent(es: seq<Entry>, t: Bytes)
    ensures HardAt(es, t) || ScoreAt(es, t) != 0 ==> AnyAt(es, t)
  {
    if !AnyAt(es, t) {
      NoPhraseNoScore(es, t);
    }
  }

  /** A table with only its root belongs to a list without a single non-empty phrase. */
  lemma {:induction false} NoPhrases(nodes: seq<AhoNode>, id: Index, es: seq<Entry>, threshold: int, s: Bytes)
    requires IsAutomaton(nodes, id, es) && |nodes| <= 1
    ensures At(nodes, es, s, 0, 0, false) && NoBlock32(es, threshold, s)
  {
    if s == [] {
    } else {
      var front, b := s[..|s| - 1], s[|s| - 1];
      SplitLast(s);
      NoPhrases(nodes, id, es, threshold, front);
      AtStep(nodes, id, es, threshold, front, 0, 0, false, b);
      RootSilentNode(nodes, id, es);
      NoBlockSnoc(es, threshold, front, b);
    }
  }

  lemma ScanChunkIs(nodes: seq<AhoNode>, id: Index, es: seq<Entry>, threshold: int, s: Bytes, r: Registers, chunk: Bytes)
    requires IsAutomaton(nodes, id, es) && NoBlock32(es, threshold, s) && At(nodes, es, s, r.node, r.score, r.excepted)
    ensures match ScanChunk(nodes, threshold, r, chunk)
      case Through(r') => NoBlock32(es, threshold, s + chunk) && At(nodes, es, s + chunk, r'.node, r'.score, r'.excepted)
      case Halt(_, n) => 0 < n <= |chunk| && FirstBlock32(es, threshold, s + chunk, |s| + n)
  {
    hide ExceptedBy, Score32, Walk, NoBlock32, FirstBlock32, IsAutomaton, Fold, ScanFrom;
    if |nodes| <= 1 {
      NoPhrases(nodes, id, es, threshold, s);
      NoPhrases(nodes, id, es, threshold, s + chunk);
    } else {
      assert s + chunk[..0] == s;
      assert chunk == [] ==> s + chunk == s;
      ScanFromIs(nodes, id, es, threshold, s, r, chunk, 0);
    }
  }

  lemma RootSilentNode(nodes: seq<AhoNode>, id: Index, es: seq<Entry>)
    requires IsAutomaton(nodes, id, es)
    ensures |nodes| > 0 && !nodes[0].hard && !nodes[0].excpt && nodes[0].score == 0
  {
    assert FullValues(es, nodes[id[[]]], []);
    RootIsSilent(es);
  }

  lemma {:induction false} BlockHistory(es: seq<Entry>, threshold: int, s: Bytes, b: byte, rest: Bytes)
    ensures NoBlock32(es, threshold, s + [b]) <==> NoBlock32(es, threshold, s) && !Blocks32(es, threshold, s + [b])
    ensures NoBlock32(es, threshold, s) && Blocks32(es, threshold, s + [b]) ==>
      FirstBlock32(es, threshold, s + [b] + rest, |s| + 1)
  {
    var t := s + [b];
    assert t[..|t|] == t;
    if NoBlock32(es, threshold, t) {
      forall j | 0 <= j <= |s| ensures !Blocks32(es, threshold, s[..j]) {
        assert t[..j] == s[..j];
      }
    }
    if NoBlock32(es, threshold, s) {
      if Blocks32(es, threshold, t) {
        FirstBlockSnoc(es, threshold, s, b, rest);
      } else {
        NoBlockSnoc(es, threshold, s, b);
      }
    }
  }

  // ---------------------------------------------------------------- int32 against ideal

  ghost function TotalScore(es: seq<Entry>): int
  {
    if es == [] then 0 else TotalScore(es[..|es| - 1]) + es[|es| - 1].score
  }

  /** No score is negative, which the constructor sees to. */
  ghost predicate NonNegative(es: seq<Entry>)
  {
    forall i | 0 <= i < |es| :: es[i].score >= 0
  }

  lemma {:induction false} ScoreBounds(es: seq<Entry>, t: Bytes)
    requires NonNegative(es)
    ensures 0 <= ScoreAt(es, t) <= TotalScore(es)
  {
    if es != [] {
      ScoreBounds(es[..|es| - 1], t);
    }
  }

  lemma {:induction false} CumulativeSnoc(es: seq<Entry>, s: Bytes, b: byte)
    ensures Cumulative(es, s + [b]) == Cumulative(es, s) + ScoreAt(es, Fold(s + [b]))
  {
  }

  /** The scores the scanner adds: those that are positive as int32. */
  ghost function Counted(es: seq<Entry>, s: Bytes): int
  {
    if s == [] then 0
    else Counted(es, s[..|s| - 1]) + if Points32(es, s) > 0 then ScoreAt(es, Fold(s)) else 0
  }

  lemma {:induction false} CountedSnoc(es: seq<Entry>, s: Bytes, b: byte)
    ensures Counted(es, s + [b]) == Counted(es, s) + if Points32(es, s + [b]) > 0 then ScoreAt(es, Fold(s + [b])) else 0
  {
    hide Points32, ScoreAt, Fold;
  }

  /** As long as nothing is excepted, the accumulator is the int32 of those scores. */
  lemma {:induction false} AccumulatorExact(es: seq<Entry>, s: Bytes)
    requires !ExceptedBy(es, s)
    ensures Score32(es, s) == Wrap32(Counted(es, s))
  {
    hide ExceptedBy, ScoreAt, Fold, Wrap32;
    if s == [] {
    } else {
      var front, b := s[..|s| - 1], s[|s| - 1];
      SplitLast(s);
      ExceptedSnoc(es, front, b);
      AccumulatorExact(es, front);
      Score32Snoc(es, front, b);
      CountedSnoc(es, front, b);
      WrapAdd(Counted(es, front), ScoreAt(es, Fold(s)));
    }
  }

  /** Whether the scores alone make the scanner block, in arithmetic: for every list, every threshold and every stream. */
  ghost predicate ScoreTest(es: seq<Entry>, threshold: int, s: Bytes)
  {
    Wrap32(threshold) > 0 && Points32(es, s) > 0 && Wrap32(Counted(es, s)) >= Wrap32(threshold)
  }

  lemma {:induction false} ScannerExact(es: seq<Entry>, threshold: int, s: Bytes)
    ensures Blocks32(es, threshold, s) <==> !ExceptedBy(es, s) && (HardAt(es, Fold(s)) || ScoreTest(es, threshold, s))
  {
    hide ExceptedBy, HardAt, Fold, Score32, Counted, Wrap32, Points32;
    if !ExceptedBy(es, s) {
      AccumulatorExact(es, s);
    }
  }

  /** While the unbounded reading does not block, the running score is small and all of it is counted. */
  lemma {:induction false} CumulativeBound(es: seq<Entry>, threshold: int, s: Bytes)
    requires NonNegative(es) && 0 < threshold <= MAX32
    requires !ExceptedBy(es, s) && forall j | 0 <= j <= |s| :: !Blocks(es, threshold, s[..j])
    ensures 0 <= Cumulative(es, s) < threshold && Counted(es, s) == Cumulative(es, s)
  {
    hide ExceptedBy, ScoreAt, Fold;
    assert s[..|s|] == s;
    if s != [] {
      var front, b := s[..|s| - 1], s[|s| - 1];
      SplitLast(s);
      ExceptedSnoc(es, front, b);
      assert forall j | 0 <= j <= |front| :: front[..j] == s[..j];
      CumulativeBound(es, threshold, front);
      ScoreBounds(es, Fold(s));
      CountedSnoc(es, front, b);
      CumulativeSnoc(es, front, b);
    }
  }

  /** The last score, as the scanner sees it, still lifts the int32 sum to the threshold. */
  ghost predicate LandsAbove(es: seq<Entry>, threshold: int, s: Bytes)
  {
    Points32(es, s) > 0 && Wrap32(Cumulative(es, s)) >= threshold
  }

  /**
   At the first offset where either could block, for every list and threshold: the scanner reads the threshold as int32,
   and of the blocks the unbounded reading then has it misses exactly the sums that overflow and do not land above the
   threshold again.
   */
  lemma {:induction false} BlocksAgree(es: seq<Entry>, threshold: int, s: Bytes)
    requires NonNegative(es)
    requires forall j | 0 <= j < |s| :: !Blocks(es, Wrap32(threshold), s[..j])
    ensures var t := Wrap32(threshold);
      Blocks32(es, threshold, s) <==>
        Blocks(es, t, s) && (HardAt(es, Fold(s)) || Cumulative(es, s) <= MAX32 || LandsAbove(es, t, s))
  {
    hide HardAt, ScoreAt, ExceptedBy, Fold, Cumulative, Counted, Score32;
    var t := Wrap32(threshold);
    NothingBlocks(es, threshold);
    NothingBlocks(es, t);
    ScannerExact(es, threshold, s);
    if s != [] && !ExceptedBy(es, s) && t > 0 {
      var front, b := s[..|s| - 1], s[|s| - 1];
      SplitLast(s);
      ExceptedSnoc(es, front, b);
      assert forall j | 0 <= j <= |front| :: front[..j] == s[..j];
      CumulativeBound(es, t, front);
      ScoreBounds(es, Fold(s));
      CountedSnoc(es, front, b);
      CumulativeSnoc(es, front, b);
    }
  }

  /** A sum of weights that fits leaves no such landing: an overflowing score is then always missed. */
  lemma {:induction false} NoLanding(es: seq<Entry>, threshold: int, s: Bytes)
    requires NonNegative(es) && TotalScore(es) <= MAX32 && 0 < threshold <= MAX32
    requires s != [] && !ExceptedBy(es, s) && forall j | 0 <= j < |s| :: !Blocks(es, threshold, s[..j])
    ensures Cumulative(es, s) > MAX32 ==> !LandsAbove(es, threshold, s)
  {
    hide HardAt, ScoreAt, ExceptedBy, Fold, Cumulative, Counted;
    var front, b := s[..|s| - 1], s[|s| - 1];
    SplitLast(s);
    ExceptedSnoc(es, front, b);
    assert forall j | 0 <= j <= |front| :: front[..j] == s[..j];
    CumulativeBound(es, threshold, front);
    ScoreBounds(es, Fold(s));
    CumulativeSnoc(es, front, b);
  }

  /**
   The scanner blocks where the unbounded reading with the int32 threshold first does, exactly when a phrase is blocked
   outright there, the score there is an int32, or the overflowing sum lands above the threshold again; the last cannot
   happen when the weights together fit in an int32.
   */
  lemma {:induction false} FirstBlockExact(es: seq<Entry>, threshold: int, s: Bytes, i: int)
    requires NonNegative(es) && FirstBlock(es, Wrap32(threshold), s, i)
    ensures FirstBlock32(es, threshold, s, i) <==>
      HardAt(es, Fold(s[..i])) || Cumulative(es, s[..i]) <= MAX32 || LandsAbove(es, Wrap32(threshold), s[..i])
    ensures TotalScore(es) <= MAX32 ==>
      (FirstBlock32(es, threshold, s, i) <==> HardAt(es, Fold(s[..i])) || Cumulative(es, s[..i]) <= MAX32)
  {
    hide HardAt, ExceptedBy, Fold, Cumulative, Counted, Score32, LandsAbove, Blocks32;
    var t := Wrap32(threshold);
    forall j | 0 <= j <= i
      ensures Blocks32(es, threshold, s[..j]) <==>
        Blocks(es, t, s[..j]) && (HardAt(es, Fold(s[..j])) || Cumulative(es, s[..j]) <= MAX32 || LandsAbove(es, t, s[..j]))
    {
      assert forall k | 0 <= k < j :: s[..j][..k] == s[..k];
      BlocksAgree(es, threshold, s[..j]);
    }
    if TotalScore(es) <= MAX32 && !HardAt(es, Fold(s[..i])) {
      NothingBlocks(es, t);
      assert forall k | 0 <= k < i :: s[..i][..k] == s[..k];
      NoLanding(es, t, s[..i]);
    }
  }

  /** A stream that the unbounded reading with the int32 threshold lets through is let through. */
  lemma {:induction false} NoBlockKept(es: seq<Entry>, threshold: int, s: Bytes)
    requires NonNegative(es)
    requires forall j | 0 <= j <= |s| :: !Blocks(es, Wrap32(threshold), s[..j])
    ensures NoBlock32(es, threshold, s)
  {
    hide Blocks, Blocks32;
    forall j | 0 <= j <= |s| ensures !Blocks32(es, threshold, s[..j]) {
      assert forall k | 0 <= k < j :: s[..j][..k] == s[..k];
      BlocksAgree(es, threshold, s[..j]);
    }
  }

  // ---------------------------------------------------------------- false blocks

  /** The scanner blocks at the end of s although the threshold is not reached and no phrase is blocked outright. */
  ghost predicate FalseBlock(es: seq<Entry>, threshold: int, s: Bytes)
  {
    Blocks32(es, threshold, s) && forall j | 0 <= j <= |s| :: !Blocks(es, threshold, s[..j])
  }

  /** Neither an exception nor a blocked phrase anywhere in s. */
  ghost predicate Quiet(es: seq<Entry>, s: Bytes)
  {
    !ExceptedBy(es, s) && forall j | 0 <= j <= |s| :: !HardAt(es, Fold(s[..j]))
  }

  lemma {:induction false} CumulativeGrows(es: seq<Entry>, s: Bytes, j: nat)
    requires NonNegative(es) && j <= |s|
    ensures 0 <= Cumulative(es, s[..j]) <= Cumulative(es, s)
    decreases |s|
  {
    hide ScoreAt, Fold;
    if s != [] {
      var front, b := s[..|s| - 1], s[|s| - 1];
      SplitLast(s);
      CumulativeSnoc(es, front, b);
      ScoreBounds(es, Fold(s));
      CumulativeGrows(es, front, if j < |s| then j else 0);
      if j < |s| {
        assert front[..j] == s[..j];
      }
    }
    assert s[..|s|] == s;
  }

  lemma {:induction false} ExceptedPrefix(es: seq<Entry>, s: Bytes, j: nat)
    requires j <= |s| && ExceptedBy(es, s[..j])
    ensures ExceptedBy(es, s)
  {
    var k :| 0 <= k <= j && ExceptAt(es, Fold(s[..j][..k]));
    assert s[..j][..k] == s[..k];
  }

  /** Exactly when a block is false: nothing but the scores blocks, and they are below the threshold that was set. */
  lemma {:induction false} FalseBlockIff(es: seq<Entry>, threshold: int, s: Bytes)
    requires NonNegative(es) && threshold >= 0
    ensures FalseBlock(es, threshold, s) <==>
      Quiet(es, s) && ScoreTest(es, threshold, s) && Cumulative(es, s) < threshold
  {
    hide ExceptedBy, HardAt, Fold, Cumulative, Counted, Points32, Blocks32;
    ScannerExact(es, threshold, s);
    assert s[..|s|] == s;
    forall j | 0 <= j <= |s|
      ensures ExceptedBy(es, s[..j]) ==> ExceptedBy(es, s)
      ensures Cumulative(es, s[..j]) <= Cumulative(es, s)
    {
      if ExceptedBy(es, s[..j]) {
        ExceptedPrefix(es, s, j);
      }
      CumulativeGrows(es, s, j);
    }
  }

  /** There is none unless the threshold is beyond int32 and still positive when it is cut down. */
  lemma {:induction false} FalseBlockNeedsCut(es: seq<Entry>, threshold: int, s: Bytes)
    requires NonNegative(es) && threshold >= 0 && FalseBlock(es, threshold, s)
    ensures threshold > MAX32 && Wrap32(threshold) > 0
  {
    hide Blocks, Blocks32, Quiet, HardAt, ExceptedBy;
    FalseBlockIff(es, threshold, s);
    assert s[..|s|] == s;
    if threshold <= MAX32 {
      NoBlockKept(es, threshold, s);
    }
  }

  // ---------------------------------------------------------------- settings with room

  /** A configuration whose threshold and weights leave no room for overflow. */
  ghost predicate Roomy(es: seq<Entry>, threshold: int)
  {
    NonNegative(es) && 0 <= threshold <= MAX32 && threshold - 1 + TotalScore(es) <= MAX32
  }

  /** In such a configuration every stream is blocked exactly where the unbounded reading blocks it. */
  lemma {:induction false} RoomyExact(es: seq<Entry>, threshold: int, s: Bytes, i: int)
    requires Roomy(es, threshold)
    ensures FirstBlock32(es, threshold, s, i) <==> FirstBlock(es, threshold, s, i)
    ensures NoBlock32(es, threshold, s) <==> forall j | 0 <= j <= |s| :: !Blocks(es, threshold, s[..j])
  {
    hide Blocks, Blocks32;
    if forall j | 0 <= j <= |s| :: !Blocks(es, threshold, s[..j]) {
      NoBlockKept(es, threshold, s);
    } else {
      var k := FindFirst(es, threshold, s);
      RoomyFirst(es, threshold, s, k);
    }
  }

  lemma {:induction false} FindFirst(es: seq<Entry>, threshold: int, s: Bytes) returns (k: int)
    requires exists j | 0 <= j <= |s| :: Blocks(es, threshold, s[..j])
    ensures FirstBlock(es, threshold, s, k)
  {
    k := 0;
    while !Blocks(es, threshold, s[..k])
      invariant 0 <= k <= |s|
      invariant forall j | 0 <= j < k :: !Blocks(es, threshold, s[..j])
      decreases |s| - k
    {
      k := k + 1;
    }
  }

  lemma {:induction false} RoomyFirst(es: seq<Entry>, threshold: int, s: Bytes, k: int)
    requires Roomy(es, threshold) && FirstBlock(es, threshold, s, k)
    ensures FirstBlock32(es, threshold, s, k)
  {
    hide HardAt, ScoreAt, ExceptedBy, Fold, Cumulative, Counted, FirstBlock32;
    var t := s[..k];
    NothingBlocks(es, threshold);
    if !HardAt(es, Fold(t)) {
      var front, b := t[..|t| - 1], t[|t| - 1];
      SplitLast(t);
      ExceptedSnoc(es, front, b);
      assert forall j | 0 <= j <= |front| :: front[..j] == s[..j];
      CumulativeBound(es, threshold, front);
      ScoreBounds(es, Fold(t));
      CumulativeSnoc(es, front, b);
    }
    FirstBlockExact(es, threshold, s, k);
  }

  // ---------------------------------------------------------------- three inputs

  /** What a list of one-byte weights makes of one more byte. */
  lemma {:induction false} TwoWeights(es: seq<Entry>, x: Entry, y: Entry, s: Bytes, c: byte)
    requires es == [x, y] && |x.text| == 1 && |y.text| == 1 && !x.exception && !y.exception && Lower(c) == c
    ensures var p := (if x.text == [c] then x.score else 0) + (if y.text == [c] then y.score else 0);
      ScoreAt(es, Fold(s + [c])) == p && Cumulative(es, s + [c]) == Cumulative(es, s) + p
    ensures HardAt(es, Fold(s + [c])) <==> (x.text == [c] && x.hard) || (y.text == [c] && y.hard)
    ensures !ExceptedBy(es, s)
  {
    hide Cumulative;
    var t := Fold(s + [c]);
    CumulativeSnoc(es, s, c);
    LastByte(t, x.text, c);
    LastByte(t, y.text, c);
    assert es[..1][..0] == [] && es[..1][0] == x && es[1] == y && es[0] == x;
    assert ScoreAt(es[..1], t) == if x.text == [c] then x.score else 0;
  }

  lemma {:induction false} LastByte(t: Bytes, u: Bytes, c: byte)
    requires t != [] && t[|t| - 1] == c && |u| == 1
    ensures IsSuffix(u, t) <==> u == [c]
  {
    assert t[|t| - 1..] == [c];
  }

  ghost function OverflowEntries(): seq<Entry>
  {
    [Entry([LETTER_A], 2, false, false), Entry([LETTER_B], MAX32 - 2, false, false)]
  }

  /** The overflow is real: three bytes whose score passes the threshold and is missed. */
  lemma {:induction false} OverflowMissed()
    ensures NonNegative(OverflowEntries()) && TotalScore(OverflowEntries()) <= MAX32
    ensures FirstBlock(OverflowEntries(), MAX32, [LETTER_A, LETTER_A, LETTER_B], 3)
    ensures NoBlock32(OverflowEntries(), MAX32, [LETTER_A, LETTER_A, LETTER_B])
  {
    hide HardAt, ScoreAt, Fold, Blocks32, ExceptedBy, Cumulative, NonNegative, TotalScore, LandsAbove, OverflowEntries;
    var es, a, b := OverflowEntries(), LETTER_A, LETTER_B;
    var s := [a, a, b];
    OverflowTotal();
    OverflowValues();
    NothingBlocks(es, MAX32);
    assert s[..0] == [] && s[..1] == [a] && s[..2] == [a, a] && s[..3] == s;
    FirstBlockExact(es, MAX32, s, 3);
    forall j | 0 <= j <= 3 ensures !Blocks32(es, MAX32, s[..j]) {
      OverflowAt(s, j);
    }
  }

  lemma {:induction false} OverflowAt(s: Bytes, j: nat)
    requires var es := OverflowEntries(); NonNegative(es) && FirstBlock(es, MAX32, s, 3) && !FirstBlock32(es, MAX32, s, 3)
    requires j <= 3
    ensures !Blocks32(OverflowEntries(), MAX32, s[..j])
  {
    hide Blocks, Blocks32, NonNegative, OverflowEntries, Cumulative, HardAt, LandsAbove;
    var es := OverflowEntries();
    forall i | 0 <= i < 3 ensures !Blocks32(es, MAX32, s[..i]) {
      assert forall k | 0 <= k < i :: s[..i][..k] == s[..k];
      BlocksAgree(es, MAX32, s[..i]);
    }
  }

  lemma {:induction false} OverflowValues()
    ensures var es, a := OverflowEntries(), LETTER_A;
      && Cumulative(es, [a]) == 2 && Cumulative(es, [a, a]) == 4 && Cumulative(es, [a, a, LETTER_B]) == MAX32 + 2
      && !HardAt(es, Fold([a])) && !HardAt(es, Fold([a, a])) && !HardAt(es, Fold([a, a, LETTER_B]))
      && !ExceptedBy(es, [a, a, LETTER_B])
  {
    hide HardAt, ScoreAt, Fold, ExceptedBy, Cumulative;
    var es, a, b := OverflowEntries(), LETTER_A, LETTER_B;
    EmptyCumulative(es);
    assert [] + [a] == [a] && [a] + [a] == [a, a] && [a, a] + [b] == [a, a, b];
    TwoWeights(es, es[0], es[1], [], a);
    TwoWeights(es, es[0], es[1], [a], a);
    TwoWeights(es, es[0], es[1], [a, a], b);
    TwoWeights(es, es[0], es[1], [a, a, b], b);
  }

  lemma {:induction false} EmptyCumulative(es: seq<Entry>)
    ensures Cumulative(es, []) == 0
  {
  }

  lemma {:induction false} OverflowTotal()
    ensures NonNegative(OverflowEntries()) && TotalScore(OverflowEntries()) <= MAX32
  {
    var es := OverflowEntries();
    assert es[..1][..0] == [] && TotalScore(es[..1]) == 2;
  }

  const CUT_THRESHOLD := TWO32 + 5

  ghost function CutEntries(): seq<Entry>
  {
    [Entry([LETTER_A], 5, false, false), Entry([LETTER_B], 0, true, false)]
  }

  /**
   So is the false block: a threshold of 2 to the 32 plus 5 acts as 5. The scanner stops a stream of score 5, which
   nothing blocks, and stops another before the phrase that is blocked outright.
   */
  lemma {:induction false} ThresholdCut()
    ensures NonNegative(CutEntries()) && Wrap32(CUT_THRESHOLD) == 5
    ensures FalseBlock(CutEntries(), CUT_THRESHOLD, [LETTER_A])
    ensures var s := [LETTER_A, LETTER_B];
      FirstBlock(CutEntries(), CUT_THRESHOLD, s, 2) && FirstBlock32(CutEntries(), CUT_THRESHOLD, s, 1)
  {
    hide HardAt, ScoreAt, Fold, Blocks32, ExceptedBy, Cumulative, LandsAbove;
    var es, a, b := CutEntries(), LETTER_A, LETTER_B;
    EmptyCumulative(es);
    assert [] + [a] == [a] && [a] + [b] == [a, b];
    TwoWeights(es, es[0], es[1], [], a);
    TwoWeights(es, es[0], es[1], [a], b);
    TwoWeights(es, es[0], es[1], [a, b], b);
    NothingBlocks(es, CUT_THRESHOLD);
    NothingBlocks(es, 5);
    assert [a][..0] == [] && [a][..1] == [a];
    BlocksAgree(es, CUT_THRESHOLD, [a]);
    var s := [a, b];
    assert s[..0] == [] && s[..1] == [a] && s[..2] == s;
  }

  ghost function HeavyEntries(): seq<Entry>
  {
    [Entry([LETTER_A], MAX32, false, false), Entry([LETTER_A], 1, false, false)]
  }

  /** And weights that do not fit together are missed even against a threshold of 1. */
  lemma {:induction false} WeightsMissed()
    ensures NonNegative(HeavyEntries())
    ensures FirstBlock(HeavyEntries(), 1, [LETTER_A], 1) && NoBlock32(HeavyEntries(), 1, [LETTER_A])
  {
    hide HardAt, ScoreAt, Fold, Blocks32, ExceptedBy, Cumulative;
    var es, a := HeavyEntries(), LETTER_A;
    EmptyCumulative(es);
    assert [] + [a] == [a];
    TwoWeights(es, es[0], es[1], [], a);
    TwoWeights(es, es[0], es[1], [a], a);
    NothingBlocks(es, 1);
    assert [a][..0] == [] && [a][..1] == [a];
    BlocksAgree(es, 1, [a]);
  }

  class PhraseStream {
    const nodes: seq<AhoNode>
    const threshold: int
    const observeOnly: bool
    ghost const id: Index
    ghost const es: seq<Entry>
    var node: nat
    var score: int
    var excepted: bool
    var blockedPhrase: Bytes
    var blockedType: BlockType
    ghost var text: Bytes  // everything scanned so far

    /** Before any block (an observing stream never blocks). */
    ghost predicate Valid()
      reads this
    {
      && IsAutomaton(nodes, id, es)
      && At(nodes, es, text, node, score, excepted)
      && (observeOnly || NoBlock32(es, threshold, text))
      && (blockedPhrase != [] <==> !NoBlock32(es, threshold, text))
    }

    /** After a block: the text ends at its first blocking offset, and the phrase kept ends there too. */
    ghost predicate Stopped()
      reads this
    {
      && !observeOnly && FirstBlock32(es, threshold, text, |text|)
      && blockedPhrase != [] && IsSuffix(blockedPhrase, Fold(text))
      && blockedType == (if HardAt(es, Fold(text)) then PhraseBlock else ScoreBlock)
    }

    constructor (nodes: seq<AhoNode>, threshold: int, observeOnly: bool, ghost id: Index, ghost es: seq<Entry>)
      requires IsAutomaton(nodes, id, es)
      ensures Valid() && text == []
      ensures this.nodes == nodes && this.threshold == threshold && this.observeOnly == observeOnly && this.id == id && this.es == es
    {
      this.nodes, this.threshold, this.observeOnly, this.id, this.es := nodes, threshold, observeOnly, id, es;
      node, score, excepted, blockedPhrase, blockedType, text := 0, 0, false, [], NotBlocked, [];
      NoneExcepted(es);
      NothingBlocks(es, threshold);
      assert Fold([]) == [];
    }

    /**
     ProcessChunk: the chunk passes whole unless the stream so far reaches its first block inside
     it; then exactly the bytes through that offset pass and the phrase reported ends there.
     */
    method ProcessChunk(chunk: Bytes) returns (out: Bytes, blocked: bool)
      requires Valid()
      modifies this
      ensures text == old(text) + out && out <= chunk
      ensures observeOnly ==> !blocked
      ensures !blocked ==> Valid() && out == chunk
      ensures !blocked && !observeOnly ==> NoBlock32(es, threshold, text)
      ensures blocked ==> out != [] && FirstBlock32(es, threshold, old(text) + chunk, |text|) && Stopped()
      ensures !observeOnly ==>
        var r := Registers(node, score, excepted);
        ScanChunk(nodes, threshold, old(Registers(node, score, excepted)), chunk) == if blocked then Halt(r, |out|) else Through(r)
    {
      hide HardAt, ExceptedBy, Score32, Walk, NoBlock32, FirstBlock32, IsAutomaton, IsSuffix, Fold, ScanFrom;
      if |nodes| <= 1 || chunk == [] {
        assert chunk == [] ==> text + chunk == text;
        text := text + chunk;
        if |nodes| <= 1 {
          NoPhrases(nodes, id, es, threshold, old(text));
          NoPhrases(nodes, id, es, threshold, text);
        }
        return chunk, false;
      }
      var n;
      blocked, n := MatchChunk(chunk);
      out := chunk[..n];
      if blocked {
        FirstBlockAlone(es, threshold, old(text) + chunk, |text|);
        assert (old(text) + chunk)[..|text|] == text;
      }
    }

    /** Decision: a block is reported exactly if the stream has one; then it is the block, with a phrase that ends there. */
    method Decision() returns (blocked: bool, kind: BlockType, phrase: Bytes)
      requires Valid() || Stopped()
      ensures blocked <==> !observeOnly && exists j :: 0 <= j <= |text| && Blocks32(es, threshold, text[..j])
      ensures blocked ==>
        && FirstBlock32(es, threshold, text, |text|) && phrase != [] && IsSuffix(phrase, Fold(text))
        && kind == (if HardAt(es, Fold(text)) then PhraseBlock else ScoreBlock)
    {
      blocked := blockedPhrase != [] && !observeOnly;
      kind, phrase := if blocked then blockedType else NotBlocked, if blocked then blockedPhrase else [];
    }

    /** LogDecision: an exception anywhere in the stream suppresses; otherwise any point that would have blocked is a match. */
    method LogDecision() returns (matched: bool, suppressed: bool)
      requires Valid()
      ensures suppressed <==> observeOnly && ExceptedBy(es, text)
      ensures matched <==> observeOnly && !ExceptedBy(es, text) && exists j | 0 <= j <= |text| :: Blocks32(es, threshold, text[..j])
    {
      suppressed := observeOnly && excepted;
      matched := observeOnly && !excepted && blockedPhrase != [];
    }

    method MatchChunk(chunk: Bytes) returns (blocked: bool, outLen: nat)
      requires Valid()
      modifies this
      ensures outLen <= |chunk| && text == old(text) + chunk[..outLen]
      ensures observeOnly ==> !blocked
      ensures !blocked ==> Valid() && outLen == |chunk|
      ensures blocked ==>
        && |text| > |old(text)| && FirstBlock32(es, threshold, old(text) + chunk, |text|)
        && blockedPhrase != [] && IsSuffix(blockedPhrase, Fold(text))
        && blockedType == (if HardAt(es, Fold(text)) then PhraseBlock else ScoreBlock)
      ensures !observeOnly ==>
        var r := Registers(node, score, excepted);
        ScanFrom(nodes, threshold, old(Registers(node, score, excepted)), chunk, 0) == if blocked then Halt(r, outLen) else Through(r)
    {
      hide HardAt, ExceptAt, AnyAt, ScoreAt, ExceptedBy, Score32, Walk, NoBlock32, FirstBlock32, ScoreBlocks32, IsAutomaton, IsSuffix;
      var node, score, excepted := this.node, this.score, this.excepted;
      var limit := Wrap32(threshold);
      ghost var s := text;
      assert s + chunk[..0] == s;
      for i := 0 to |chunk|
        invariant text == s
        invariant At(nodes, es, s + chunk[..i], node, score, excepted)
        invariant observeOnly || NoBlock32(es, threshold, s + chunk[..i])
        invariant blockedPhrase != [] <==> !NoBlock32(es, threshold, s + chunk[..i])
        invariant !observeOnly ==>
          ScanFrom(nodes, threshold, old(Registers(this.node, this.score, this.excepted)), chunk, 0)
          == ScanFrom(nodes, threshold, Registers(node, score, excepted), chunk, i)
      {
        var b := chunk[i];
        ghost var t := s + chunk[..i];
        assert s + chunk[..i + 1] == t + [b];
        assert s + chunk == t + [b] + chunk[i + 1..];
        AtStep(nodes, id, es, threshold, t, node, score, excepted, b);
        BlockHistory(es, threshold, t, b, chunk[i + 1..]);
        node := nodes[node].next[Lower(b)];
        var current := nodes[node];
        if current.excpt {
          excepted := true;
        }
        if excepted {
          continue;
        }
        if current.hard {
          blockedPhrase := current.phrase;
          blockedType := PhraseBlock;
          if !observeOnly {
            this.node, this.score, this.excepted := node, score, excepted;
            text := s + chunk[..i + 1];
            return true, i + 1;
          }
        }
        if current.score > 0 {
          score := Wrap32(score + current.score);
          if limit > 0 && score >= limit {
            blockedPhrase := current.phrase;
            blockedType := ScoreBlock;
            if !observeOnly {
              this.node, this.score, this.excepted := node, score, excepted;
              text := s + chunk[..i + 1];
              return true, i + 1;
            }
          }
        }
      }
      this.node, this.score, this.excepted := node, score, excepted;
      text := s + chunk;
      return false, |chunk|;
    }
  }

  lemma {:induction false} FirstBlockAlone(es: seq<Entry>, threshold: int, s: Bytes, i: int)
    requires FirstBlock32(es, threshold, s, i)
    ensures FirstBlock32(es, threshold, s[..i], i)
  {
    hide Blocks32;
    assert s[..i][..i] == s[..i];
    forall j | 0 <= j < i
      ensures !Blocks32(es, threshold, s[..i][..j])
    {
      assert s[..i][..j] == s[..j];
    }
  }

  /** The relay's use of a stream: chunks are fed until one blocks. */
  method Feed(stream: PhraseStream, chunks: seq<Bytes>) returns (out: Bytes, blocked: bool)
    requires stream.Valid() && stream.text == []
    modifies stream
    ensures out <= Concat(chunks)
    ensures !blocked ==> out == Concat(chunks)
    ensures !stream.observeOnly ==>
      && (blocked ==> FirstBlock32(stream.es, stream.threshold, Concat(chunks), |out|))
      && (!blocked ==> NoBlock32(stream.es, stream.threshold, out))
    ensures Roomy(stream.es, stream.threshold) && !stream.observeOnly ==>
      && (blocked ==> FirstBlock(stream.es, stream.threshold, Concat(chunks), |out|))
      && (!blocked ==> forall j | 0 <= j <= |out| :: !Blocks(stream.es, stream.threshold, out[..j]))
    ensures stream.observeOnly ==> !blocked
  {
    hide FirstBlock32, HardAt, PhraseStream.Valid, Roomy, Blocks, Fold;
    out, blocked := [], false;
    NothingBlocks(stream.es, stream.threshold);
    var i := 0;
    while i < |chunks| && !blocked
      invariant 0 <= i <= |chunks| && stream.text == out
      invariant stream.observeOnly ==> !blocked
      invariant !blocked ==> stream.Valid() && out == Concat(chunks[..i])
      invariant !blocked && !stream.observeOnly ==> NoBlock32(stream.es, stream.threshold, out)
      invariant blocked ==> out <= Concat(chunks[..i]) && FirstBlock32(stream.es, stream.threshold, Concat(chunks[..i]), |out|)
      decreases |chunks| - i
    {
      assert chunks[..i + 1] == chunks[..i] + [chunks[i]];
      ConcatSnoc(chunks[..i], chunks[i]);
      var piece;
      piece, blocked := stream.ProcessChunk(chunks[i]);
      out := out + piece;
      i := i + 1;
    }
    assert chunks == chunks[..i] + chunks[i..];
    ConcatAppend(chunks[..i], chunks[i..]);
    ghost var whole := Concat(chunks);
    if blocked {
      FirstBlockExtends(stream.es, stream.threshold, Concat(chunks[..i]), Concat(chunks[i..]), |out|);
    } else {
    }
    if Roomy(stream.es, stream.threshold) {
      RoomyExact(stream.es, stream.threshold, whole, |out|);
    }
  }

  lemma {:induction false} FirstBlockExtends(es: seq<Entry>, threshold: int, s: Bytes, rest: Bytes, i: int)
    requires FirstBlock32(es, threshold, s, i)
    ensures FirstBlock32(es, threshold, s + rest, i)
  {
    assert forall j | 0 <= j <= |s| :: (s + rest)[..j] == s[..j];
  }

  // ---------------------------------------------------------------- in plain words

  /** s ends in the text p, letters in either case. */
  predicate EndsIn(p: Bytes, s: Bytes)
  {
    0 < |p| <= |s| && Twins(s[|s| - |p|..], p)
  }

  /** Texts without capitals, as they are configured. */
  ghost predicate Normal(es: seq<Entry>)
  {
    forall i | 0 <= i < |es| :: Fold(es[i].text) == es[i].text
  }

  lemma EndsMeans(p: Bytes, s: Bytes)
    requires Fold(p) == p
    ensures EndsIn(p, s) <==> p != [] && IsSuffix(p, Fold(s))
  {
    if |p| <= |s| {
      var tail := s[|s| - |p|..];
      assert Fold(s)[|s| - |p|..] == Fold(tail);
      FoldMeans(tail, p);
    }
  }

  /** How often p ends in s, counting overlaps. */
  ghost function Times(p: Bytes, s: Bytes): nat
  {
    |set k | 0 <= k <= |s| && EndsIn(p, s[..k])|
  }

  /** Every weight as often as its phrase occurs. */
  ghost function Weighed(es: seq<Entry>, s: Bytes): int
  {
    if es == [] then 0
    else
      var last := es[|es| - 1];
      Weighed(es[..|es| - 1], s) + last.score * Times(last.text, s)
  }

  lemma TimesNone(p: Bytes)
    ensures Times(p, []) == 0
  {
    assert (set k | 0 <= k <= 0 && EndsIn(p, [][..k])) == {};
  }

  lemma TimesSnoc(p: Bytes, s: Bytes, b: byte)
    ensures Times(p, s + [b]) == Times(p, s) + if EndsIn(p, s + [b]) then 1 else 0
  {
    hide EndsIn;
    var t := s + [b];
    var before := set k | 0 <= k <= |s| && EndsIn(p, s[..k]);
    var now := set k | 0 <= k <= |t| && EndsIn(p, t[..k]);
    assert t[..|t|] == t && forall k | 0 <= k <= |s| :: t[..k] == s[..k];
    assert now == if EndsIn(p, t) then before + {|t|} else before;
  }

  /** One more byte adds to the weights what ends there. */
  lemma {:induction false} WeighedSnoc(es: seq<Entry>, s: Bytes, b: byte)
    requires Normal(es)
    ensures Weighed(es, s + [b]) == Weighed(es, s) + ScoreAt(es, Fold(s + [b]))
  {
    hide EndsIn, Times, Fold, IsSuffix;
    if es != [] {
      var front, last := es[..|es| - 1], es[|es| - 1];
      WeighedSnoc(front, s, b);
      TimesSnoc(last.text, s, b);
      EndsMeans(last.text, s + [b]);
      if EndsIn(last.text, s + [b]) {
        assert last.score * (Times(last.text, s) + 1) == last.score * Times(last.text, s) + last.score;
      }
    }
  }

  lemma {:induction false} WeighedNone(es: seq<Entry>)
    ensures Weighed(es, []) == 0
  {
    hide Times;
    if es != [] {
      WeighedNone(es[..|es| - 1]);
      TimesNone(es[|es| - 1].text);
    }
  }

  /** The score of a stream, added up offset by offset, is the sum over the phrases of weight times occurrences. */
  lemma {:induction false} CumulativeIsWeighed(es: seq<Entry>, s: Bytes)
    requires Normal(es)
    ensures Cumulative(es, s) == Weighed(es, s)
  {
    hide Weighed, ScoreAt, Normal, Fold;
    if s == [] {
      WeighedNone(es);
    } else {
      var front, b := s[..|s| - 1], s[|s| - 1];
      SplitLast(s);
      CumulativeIsWeighed(es, front);
      WeighedSnoc(es, front, b);
    }
  }

  /** What blocks, in plain words: no exception phrase so far, and a blocked phrase ends here or the weights reach the threshold. */
  lemma BlocksMeans(es: seq<Entry>, threshold: int, s: Bytes)
    requires Normal(es)
    ensures Blocks(es, threshold, s) <==>
      && (forall i, k | 0 <= i < |es| && es[i].exception && 0 <= k <= |s| :: !EndsIn(es[i].text, s[..k]))
      && ((exists i :: 0 <= i < |es| && es[i].hard && EndsIn(es[i].text, s)) || (threshold > 0 && Weighed(es, s) >= threshold))
  {
    hide EndsIn, Cumulative, Weighed, IsSuffix, Fold;
    CumulativeIsWeighed(es, s);
    forall i, k | 0 <= i < |es| && 0 <= k <= |s|
      ensures EndsIn(es[i].text, s[..k]) <==> es[i].text != [] && IsSuffix(es[i].text, Fold(s[..k]))
    {
      EndsMeans(es[i].text, s[..k]);
    }
    assert s[..|s|] == s;
    if ExceptedBy(es, s) {
      var k :| 0 <= k <= |s| && ExceptAt(es, Fold(s[..k]));
      var i :| 0 <= i < |es| && es[i].exception && es[i].text != [] && IsSuffix(es[i].text, Fold(s[..k]));
      assert EndsIn(es[i].text, s[..k]);
    }
    if i, k :| 0 <= i < |es| && es[i].exception && 0 <= k <= |s| && EndsIn(es[i].text, s[..k]) {
      assert ExceptAt(es, Fold(s[..k]));
    }
    if HardAt(es, Fold(s)) {
      var i :| 0 <= i < |es| && es[i].hard && es[i].text != [] && IsSuffix(es[i].text, Fold(s));
      assert EndsIn(es[i].text, s[..|s|]);
    }
    if i :| 0 <= i < |es| && es[i].hard && EndsIn(es[i].text, s) {
      assert EndsIn(es[i].text, s[..|s|]);
    }
  }

  // ---------------------------------------------------------------- letters in either case

  lemma PrefixAlike(s: Bytes, t: Bytes, k: nat)
    requires Twins(s, t) && k <= |s|
    ensures k <= |t| && Fold(s[..k]) == Fold(t[..k])
  {
    TwinsSplit(s, t, k);
    FoldMeans(s[..k], t[..k]);
  }

  lemma ExceptsAlike(es: seq<Entry>, s: Bytes, t: Bytes)
    requires Twins(s, t)
    ensures ExceptedBy(es, s) <==> ExceptedBy(es, t)
  {
    hide ExceptAt, Fold, Twins;
    TwinsLength(s, t);
    forall k | 0 <= k <= |s|
      ensures Fold(s[..k]) == Fold(t[..k])
    {
      PrefixAlike(s, t, k);
    }
  }

  lemma {:induction false} ScoresAlike(es: seq<Entry>, s: Bytes, t: Bytes)
    requires Twins(s, t)
    ensures Score32(es, s) == Score32(es, t)
  {
    hide ExceptedBy, ScoreAt, Fold, Twins;
    TwinsLength(s, t);
    if s != [] {
      TwinsSplit(s, t, |s| - 1);
      ScoresAlike(es, s[..|s| - 1], t[..|s| - 1]);
      ExceptsAlike(es, s, t);
      FoldMeans(s, t);
    }
  }

  lemma BlockAlike(es: seq<Entry>, threshold: int, s: Bytes, t: Bytes)
    requires Twins(s, t)
    ensures Blocks32(es, threshold, s) <==> Blocks32(es, threshold, t)
  {
    hide ExceptedBy, ScoreAt, Fold, Twins, HardAt, Score32;
    ExceptsAlike(es, s, t);
    ScoresAlike(es, s, t);
    FoldMeans(s, t);
  }

  /** Streams that differ in case only are blocked at the same offset, or neither is. */
  lemma CaseBlindBlock(es: seq<Entry>, threshold: int, s: Bytes, t: Bytes)
    requires Twins(s, t)
    ensures NoBlock32(es, threshold, s) <==> NoBlock32(es, threshold, t)
    ensures forall i :: FirstBlock32(es, threshold, s, i) <==> FirstBlock32(es, threshold, t, i)
  {
    hide Blocks32, Twins;
    TwinsLength(s, t);
    forall k | 0 <= k <= |s|
      ensures Blocks32(es, threshold, s[..k]) <==> Blocks32(es, threshold, t[..k])
    {
      TwinsSplit(s, t, k);
      BlockAlike(es, threshold, s[..k], t[..k]);
    }
  }

  /** Two scanners of the same phrases on such streams, each cut in any way. */
  method FeedTwins(a: PhraseStream, b: PhraseStream, x: seq<Bytes>, y: seq<Bytes>) returns (outA: Bytes, blockedA: bool, outB: Bytes, blockedB: bool)
    requires a != b && a.Valid() && a.text == [] && b.Valid() && b.text == []
    requires a.es == b.es && a.threshold == b.threshold && !a.observeOnly && !b.observeOnly && Twins(Concat(x), Concat(y))
    modifies a, b
    ensures blockedA == blockedB && |outA| == |outB| && outA <= Concat(x) && outB <= Concat(y)
  {
    hide FirstBlock32, NoBlock32, PhraseStream.Valid, Twins, Roomy;
    outA, blockedA := Feed(a, x);
    outB, blockedB := Feed(b, y);
    CaseBlindBlock(a.es, a.threshold, Concat(x), Concat(y));
    TwinsLength(Concat(x), Concat(y));
    if blockedA {
      OneFirst(a.es, a.threshold, Concat(y), |outA|);
    } else if blockedB {
      OneFirst(a.es, a.threshold, Concat(x), |outB|);
    }
  }

  lemma OneFirst(es: seq<Entry>, threshold: int, s: Bytes, i: int)
    requires FirstBlock32(es, threshold, s, i)
    ensures !NoBlock32(es, threshold, s) && forall j | FirstBlock32(es, threshold, s, j) :: j == i
  {
    hide Blocks32;
  }
}
