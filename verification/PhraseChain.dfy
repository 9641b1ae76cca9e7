/**
 The content filter with a phrase filter between the sniffer and the masker. A phrase that blocks ends the stream
 where it ends; whether what has passed by then is masked depends on how the blocking chunk reached the phrase filter.
 */
module PhraseChains {

  import opened Options
  import opened Bytes
  import opened Chains
  import opened Magic
  import opened Masking
  import opened ContentChains
  import opened PhraseAutomaton
  import InspectReaders
  import PhraseFilters
  import PhraseStreams

  function PhraseProcess(nodes: seq<AhoNode>, threshold: int, m: Member, c: Bytes): Step<Member>
  {
    match m
    case Scanning(r) =>
      (match PhraseStreams.ScanChunk(nodes, threshold, r, c)
       case Through(r') => Passed(Scanning(r'), c)
       case Halt(r', n) => Blocked(Scanning(r'), c[..n]))
    case _ => Passed(m, c)
  }

  /** A phrase filter keeps nothing back, so it has no flush. */
  function PhraseEngine(nodes: seq<AhoNode>, threshold: int): Engine<Member>
  {
    Engine((m: Member, c: Bytes) => PhraseProcess(nodes, threshold, m, c), None)
  }

  const Unscanned := Scanning(PhraseStreams.Registers(0, 0, false))

  // ---------------------------------------------------------------- the phrase filter on a stream

  /** The registers are those after t, which nothing blocks. */
  ghost predicate Stands(nodes: seq<AhoNode>, es: seq<Entry>, threshold: int, t: Bytes, m: Member)
  {
    && m.Scanning? && PhraseStreams.NoBlock32(es, threshold, t)
    && PhraseStreams.At(nodes, es, t, m.regs.node, m.regs.score, m.regs.excepted)
  }

  lemma PhraseOne(nodes: seq<AhoNode>, id: Index, es: seq<Entry>, threshold: int, t: Bytes, m: Member, c: Bytes)
    requires IsAutomaton(nodes, id, es) && Stands(nodes, es, threshold, t, m)
    ensures match PhraseProcess(nodes, threshold, m, c)
      case Passed(m', out) => out == c && Stands(nodes, es, threshold, t + c, m') && PhraseStreams.NoBlock32(es, threshold, t + c)
      case Blocked(_, out) => out <= c && out != [] && PhraseStreams.FirstBlock32(es, threshold, t + c, |t| + |out|)
      case Failed => false
  {
    hide IsAutomaton, PhraseStreams.ScanChunk, PhraseStreams.At, PhraseStreams.NoBlock32, PhraseStreams.FirstBlock32;
    PhraseStreams.ScanChunkIs(nodes, id, es, threshold, t, m.regs, c);
  }

  lemma NothingScanned(nodes: seq<AhoNode>, es: seq<Entry>, threshold: int)
    ensures Stands(nodes, es, threshold, [], Unscanned) && PhraseStreams.NoBlock32(es, threshold, [])
  {
    PhraseStreams.NoneExcepted(es);
    PhraseStreams.NothingBlocks(es, threshold);
    assert Fold([]) == [];
  }

  /** A block stays the first one whatever follows, and is the only first one. */
  lemma BlockStays(es: seq<Entry>, threshold: int, t: Bytes, i: int, more: Bytes)
    requires PhraseStreams.FirstBlock32(es, threshold, t, i)
    ensures PhraseStreams.FirstBlock32(es, threshold, t + more, i) && !PhraseStreams.NoBlock32(es, threshold, t + more)
    ensures forall j | PhraseStreams.FirstBlock32(es, threshold, t + more, j) :: i == j
  {
    hide PhraseStreams.Blocks32;
    assert forall j | 0 <= j <= i :: (t + more)[..j] == t[..j];
  }

  lemma SomeFirst(es: seq<Entry>, threshold: int, t: Bytes) returns (i: nat)
    requires !PhraseStreams.NoBlock32(es, threshold, t)
    ensures PhraseStreams.FirstBlock32(es, threshold, t, i)
  {
    hide PhraseStreams.Blocks32;
    i := 0;
    while !PhraseStreams.Blocks32(es, threshold, t[..i])
      invariant 0 <= i <= |t| && forall j | 0 <= j < i :: !PhraseStreams.Blocks32(es, threshold, t[..j])
      decreases |t| - i
    {
      i := i + 1;
    }
  }

  /** The phrase filter lets a stream through, unchanged, exactly if nothing blocks in it. */
  lemma {:induction false} PhraseRun(nodes: seq<AhoNode>, id: Index, es: seq<Entry>, threshold: int, chunks: seq<Bytes>)
    requires IsAutomaton(nodes, id, es)
    ensures var e, t := PhraseEngine(nodes, threshold), Concat(chunks);
      && (Runs(e, Unscanned, chunks) <==> PhraseStreams.NoBlock32(es, threshold, t))
      && (Runs(e, Unscanned, chunks) ==>
            Stands(nodes, es, threshold, t, StateAfter(e, Unscanned, chunks)) && Concat(Outs(e, Unscanned, chunks)) == t)
  {
    hide Solid, PhraseProcess, Runs, PhraseStreams.NoBlock32, PhraseStreams.FirstBlock32, IsAutomaton, Stands;
    var e := PhraseEngine(nodes, threshold);
    if chunks == [] {
      NothingScanned(nodes, es, threshold);
      RunsNothing(e, Unscanned);
    } else {
      var front, c := chunks[..|chunks| - 1], chunks[|chunks| - 1];
      assert chunks == front + [c];
      ConcatSnoc(front, c);
      PhraseRun(nodes, id, es, threshold, front);
      RunsLast(e, Unscanned, chunks);
      if Runs(e, Unscanned, front) {
        var m := StateAfter(e, Unscanned, front);
        PhraseOne(nodes, id, es, threshold, Concat(front), m, c);
        var r := PhraseProcess(nodes, threshold, m, c);
        if r.Passed? {
          ConcatAppend(Outs(e, Unscanned, front), Solid(r.out));
        } else {
          BlockStays(es, threshold, Concat(chunks), |Concat(front)| + |r.out|, []);
          assert Concat(chunks) + [] == Concat(chunks);
        }
      } else {
        var i := SomeFirst(es, threshold, Concat(front));
        BlockStays(es, threshold, Concat(front), i, c);
      }
    }
  }

  lemma RunsNothing<S(!new)>(e: Engine<S>, s: S)
    ensures Runs(e, s, []) && Outs(e, s, []) == []
  {
  }

  lemma PhraseInert(nodes: seq<AhoNode>, id: Index, es: seq<Entry>, threshold: int)
    requires IsAutomaton(nodes, id, es)
    ensures Inert(PhraseEngine(nodes, threshold), Unscanned)
  {
    hide IsAutomaton, PhraseStreams.NoBlock32, PhraseStreams.At, PhraseStreams.ScanFrom;
    forall chunks: seq<Bytes>
      ensures var e := PhraseEngine(nodes, threshold); Runs(e, Unscanned, chunks) ==>
        e.process(StateAfter(e, Unscanned, chunks), []) == Passed(StateAfter(e, Unscanned, chunks), [])
    {
      PhraseRun(nodes, id, es, threshold, chunks);
    }
  }

  // ---------------------------------------------------------------- the filters together

  /** How the filters are set up. */
  datatype Setup = Setup(detect: Bytes -> string, banned: set<string>, nodes: seq<AhoNode>,
                         ghost id: Index, ghost entries: seq<Entry>, threshold: int, phrases: seq<Bytes>)
  {
    ghost predicate Valid()
    {
      IsAutomaton(nodes, id, entries)
    }

    /** What NewMaskingFilter makes of the phrases to mask. */
    function Kept(): seq<Bytes>
    {
      NonEmpty(phrases)
    }

    function MaxLen(): nat
    {
      Longest(phrases)
    }

    /** There is a sniffer only if some type is banned, and a masker only if there is something to mask. */
    predicate Sniffs()
    {
      banned != {}
    }

    predicate Masks()
    {
      MaxLen() > 0
    }

    /** The phrase filter's place in the chain. */
    function Place(): nat
    {
      if Sniffs() then 1 else 0
    }

    function Engines(): seq<Engine<Member>>
    {
      (if Sniffs() then [SniffEngine(detect, banned)] else []) + [PhraseEngine(nodes, threshold)]
      + (if Masks() then [MaskEngine(Kept(), MaxLen())] else [])
    }

    function Starts(): seq<Member>
    {
      (if Sniffs() then [Unsniffed] else []) + [Unscanned] + (if Masks() then [Masked([])] else [])
    }

    predicate Bans(t: Bytes)
    {
      BannedType(detect, banned, t)
    }

    ghost predicate Quiet(t: Bytes)
    {
      PhraseStreams.NoBlock32(entries, threshold, t)
    }

    ghost predicate BlocksAt(t: Bytes, i: int): (b: bool)
      ensures b ==> 0 <= i <= |t|
    {
      PhraseStreams.FirstBlock32(entries, threshold, t, i)
    }
  }

  /** Who is where. */
  lemma Layout(s: Setup)
    ensures var es, st, p := s.Engines(), s.Starts(), s.Place();
      && |es| == |st| == p + 1 + (if s.Masks() then 1 else 0)
      && es[p] == PhraseEngine(s.nodes, s.threshold) && st[p] == Unscanned
      && (s.Sniffs() ==> es[0] == SniffEngine(s.detect, s.banned) && st[0] == Unsniffed)
      && (s.Masks() ==> es[p + 1] == MaskEngine(s.Kept(), s.MaxLen()) && st[p + 1] == Masked([]))
  {
    hide SniffEngine, PhraseEngine, MaskEngine;
  }

  /** Every member meets what a chain asks of its members. */
  lemma AllInert(s: Setup)
    requires s.Valid()
    ensures |s.Starts()| == |s.Engines()| && forall k | 0 <= k < |s.Engines()| :: Inert(s.Engines()[k], s.Starts()[k])
  {
    hide Inert, SniffEngine, PhraseEngine, MaskEngine, IsAutomaton, Fit;
    Layout(s);
    KeptFit(s.phrases);
    MembersInert(s.detect, s.banned, s.Kept(), s.MaxLen());
    PhraseInert(s.nodes, s.id, s.entries, s.threshold);
  }

  lemma SmoothParts(s: Setup, input: seq<Bytes>)
    requires |s.Starts()| == |s.Engines()| == s.Place() + 1 + (if s.Masks() then 1 else 0)
    ensures var es, st, p := s.Engines(), s.Starts(), s.Place();
      Smooth(es, st, input) <==>
        && (s.Sniffs() ==> SmoothAt(es[0], st[0], input))
        && SmoothAt(es[p], st[p], Composed(es, st, input, p))
        && (s.Masks() ==> SmoothAt(es[p + 1], st[p + 1], Composed(es, st, input, p + 1)))
  {
    hide SmoothAt, Setup.Engines, Setup.Starts;
    assert Composed(s.Engines(), s.Starts(), input, 0) == input;
  }

  /** The phrase filter is given what passes the sniffer, and the member behind it what passes the phrase filter. */
  lemma PhraseStage(s: Setup, input: seq<Bytes>)
    requires |s.Starts()| == |s.Engines()| > s.Place() && (s.Sniffs() ==> Runs(SniffEngine(s.detect, s.banned), Unsniffed, input))
    ensures Concat(Composed(s.Engines(), s.Starts(), input, s.Place())) == if s.Bans(Concat(input)) then [] else Concat(input)
    ensures Composed(s.Engines(), s.Starts(), input, s.Place() + 1)
      == Outs(PhraseEngine(s.nodes, s.threshold), Unscanned, Composed(s.Engines(), s.Starts(), input, s.Place()))
  {
    hide Setup.Engines, Setup.Starts, Runs, Outs, StateAfter, Concat, SniffEngine;
    Layout(s);
    if s.Sniffs() {
      SecondStage(s.detect, s.banned, s.Engines(), s.Starts(), input);
    }
    var given := Composed(s.Engines(), s.Starts(), input, s.Place());
    assert Outs(s.Engines()[s.Place()], Unscanned, given) + [] == Outs(s.Engines()[s.Place()], Unscanned, given);
  }

  /** What comes out of the last stage is what passed the phrase filter, masked. */
  lemma MaskStage(s: Setup, input: seq<Bytes>)
    requires |s.Starts()| == |s.Engines()| == s.Place() + 1 + (if s.Masks() then 1 else 0)
    ensures var es, st := s.Engines(), s.Starts();
      var given, out := Concat(Composed(es, st, input, s.Place() + 1)), Concat(Composed(es, st, input, |es|));
      StarredFrom(s.Kept(), given, out) && NoSurvivors(s.Kept(), out)
  {
    hide Setup.Engines, Setup.Starts, Outs, FlushOut, StateAfter, StarredFrom, NoSurvivors, MaskEngine, Concat, Fit;
    Layout(s);
    KeptFit(s.phrases);
    var given := Composed(s.Engines(), s.Starts(), input, s.Place() + 1);
    if s.Masks() {
      LastStage(s.Kept(), s.MaxLen(), given);
    } else {
      Unmasked(s, Concat(given));
    }
  }

  lemma Unmasked(s: Setup, t: Bytes)
    requires !s.Masks()
    ensures StarredFrom(s.Kept(), t, t) && NoSurvivors(s.Kept(), t)
  {
    NothingKept(s.phrases);
  }

  /** The composition runs smoothly unless a long stream's type is banned or a phrase blocks what passes the sniffer; then it is masked. */
  lemma SmoothComposition(s: Setup, input: seq<Bytes>)
    requires s.Valid() && |s.Starts()| == |s.Engines()|
    ensures var es, st, t := s.Engines(), s.Starts(), Concat(input);
      && (Smooth(es, st, input) <==> MayPass(s.detect, s.banned, t) && (s.Bans(t) || s.Quiet(t)))
      && (Smooth(es, st, input) ==>
            var shown, out := if s.Bans(t) then [] else t, Concat(Composed(es, st, input, |es|));
            StarredFrom(s.Kept(), shown, out) && NoSurvivors(s.Kept(), out))
  {
    hide Outs, FlushOut, Runs, StateAfter, StarredFrom, NoSurvivors, Concat, Smooth, Composed, FlushOk, Setup.Engines, Setup.Starts,
      PhraseStreams.NoBlock32, Stands, IsAutomaton, Fit, Flow, SniffEngine, PhraseEngine, MaskEngine;
    var es, st, p := s.Engines(), s.Starts(), s.Place();
    Layout(s);
    KeptFit(s.phrases);
    SmoothParts(s, input);
    SniffRun(s.detect, s.banned, input);
    var given := Composed(es, st, input, p);
    AllFlush(s, StateAfter(es[0], Unsniffed, input));
    AllFlush(s, StateAfter(es[p], Unscanned, given));
    if !s.Sniffs() || Runs(es[0], Unsniffed, input) {
      PhraseStage(s, input);
      PhraseRun(s.nodes, s.id, s.entries, s.threshold, given);
      NothingScanned(s.nodes, s.entries, s.threshold);
      var last := Composed(es, st, input, p + 1);
      MaskRun(s.Kept(), s.MaxLen(), last);
      AllFlush(s, StateAfter(MaskEngine(s.Kept(), s.MaxLen()), Masked([]), last));
      MaskStage(s, input);
    }
  }

  lemma AllFlush(s: Setup, m: Member)
    ensures FlushOk(SniffEngine(s.detect, s.banned), m) && FlushOk(PhraseEngine(s.nodes, s.threshold), m)
    ensures FlushOk(MaskEngine(s.Kept(), s.MaxLen()), m)
  {
    MembersFlush(s.detect, s.banned, s.Kept(), s.MaxLen(), m);
  }

  // ---------------------------------------------------------------- a stream that does not go through

  /** Only the sniffer and the phrase filter stand in the way of a stream. */
  lemma WhoRefuses(s: Setup, input: seq<Bytes>, end: Ending, out: Bytes, outcome: Outcome)
    requires s.Valid() && outcome != Ok && |s.Starts()| == |s.Engines()| && Ended(s.Engines(), s.Starts(), input, end, out, outcome)
    ensures end.why.Refusal? && end.why.at <= s.Place() && end.why.flushed <= end.why.at
    ensures AllLinked(s.Engines(), s.Starts(), end.stages, end.why.flushed, end.why.at, end.why.rest)
  {
    hide Consequence, AllLinked, Concat, Fit, IsAutomaton, StageAt, FromFlush, MaskEngine, SniffEngine, PhraseEngine, FlushOk, StateAfter,
      Setup.Engines, Setup.Starts;
    var es, st, stages, why := s.Engines(), s.Starts(), end.stages, end.why;
    Layout(s);
    KeptFit(s.phrases);
    if s.Masks() {
      MaskAnswers(s.Kept(), s.MaxLen(), stages[s.Place() + 1], if why.Refusal? then why.rest else []);
    }
    TroubleAt(es, st, stages, why);
    AllFlush(s, StateAfter(es[why.at], st[why.at], stages[why.at]));
  }

  /** The links of the members, with a chunk on its way into member j. */
  lemma Links(s: Setup, stages: seq<seq<Bytes>>, flushed: nat, j: nat, c: Bytes)
    requires j <= s.Place() && AllLinked(s.Engines(), s.Starts(), stages, flushed, j, c)
    ensures |stages| == |s.Engines()| + 1 == s.Place() + 2 + (if s.Masks() then 1 else 0)
    ensures s.Sniffs() ==>
      Linked(SniffEngine(s.detect, s.banned), Unsniffed, stages[0], stages[1] + (if j == 1 then Solid(c) else []), 0 < flushed)
    ensures Linked(PhraseEngine(s.nodes, s.threshold), Unscanned, stages[s.Place()], stages[s.Place() + 1], s.Place() < flushed)
    ensures s.Masks() ==>
      var p := s.Place() + 1; Linked(MaskEngine(s.Kept(), s.MaxLen()), Masked([]), stages[p], stages[p + 1], p < flushed)
  {
    hide Linked, Solid, Setup.Engines, Setup.Starts, SniffEngine, PhraseEngine, MaskEngine;
    var es, st, p := s.Engines(), s.Starts(), s.Place();
    Layout(s);
    assert LinkedAt(es, st, stages, flushed, 0, j, c);
    assert LinkedAt(es, st, stages, flushed, p, j, c);
    assert stages[p + 1] + [] == stages[p + 1];
    if s.Masks() {
      assert LinkedAt(es, st, stages, flushed, p + 1, j, c);
      assert stages[p + 2] + [] == stages[p + 2];
    }
  }

  /** A banned type that shows before the end: nothing has come out and nothing will. */
  lemma SnifferRefused(s: Setup, input: seq<Bytes>, end: Ending, out: Bytes, outcome: Outcome)
    requires s.Valid() && |s.Starts()| == |s.Engines()| && Ended(s.Engines(), s.Starts(), input, end, out, outcome) && s.Sniffs()
    requires end.why.Refusal? && end.why.at == end.why.flushed == 0
    requires AllLinked(s.Engines(), s.Starts(), end.stages, 0, 0, end.why.rest)
    ensures outcome == Stopped && out == [] && s.Bans(Concat(input)) && |Concat(input)| >= SNIFF
  {
    hide AllLinked, Linked, Solid, IsAutomaton, Setup.Engines, Setup.Starts, Consequence, Explains, Answer, Concat, BannedType, FromFlush;
    NothingSpelled();
    Links(s, end.stages, 0, 0, end.why.rest);
    RefusedAnswer(s, end.stages, end.why.rest, end.last, outcome);
    NothingPassed(s, end.stages, end.why.rest);
    RefusedType(s, input, end.stages, end.why.rest);
    SnifferDrains(s, end.stages, end.why.rest, end.last, outcome);
  }

  lemma RefusedAnswer(s: Setup, stages: seq<seq<Bytes>>, rest: Bytes, last: Bytes, outcome: Outcome)
    requires 0 < |s.Engines()| == |s.Starts()| && |stages| == |s.Engines()| + 1
    requires Consequence(s.Engines(), s.Starts(), stages, 0, rest, last, outcome)
    ensures !Answer(s.Engines(), s.Starts(), stages, 0, rest).Passed?
  {
    hide Answer, Setup.Engines, Setup.Starts;
  }

  lemma SnifferDrains(s: Setup, stages: seq<seq<Bytes>>, rest: Bytes, last: Bytes, outcome: Outcome)
    requires s.Sniffs() && |s.Engines()| == |s.Starts()| > 0 && |stages| == |s.Engines()| + 1
    requires forall k | 1 <= k < |stages| :: stages[k] == []
    requires var r := Answer(s.Engines(), s.Starts(), stages, 0, rest); r.Blocked? && r.out == []
    requires Consequence(s.Engines(), s.Starts(), stages, 0, rest, last, outcome)
    ensures outcome == Stopped && last == []
  {
    hide Answer, Setup.Engines, Setup.Starts, StateAfter, Drain, SniffEngine, PhraseEngine, MaskEngine;
    var es, st := s.Engines(), s.Starts();
    Layout(s);
    Untouched(es[1], st[1]);
    Untouched(es[|es| - 1], st[|es| - 1]);
    NothingDown(s, Current(es, st, stages)[0 := Answer(es, st, stages, 0, rest).state]);
  }

  lemma Untouched(e: Engine<Member>, m: Member)
    ensures StateAfter(e, m, []) == m
  {
  }

  /** Nothing through the members behind the sniffer, none of which has seen anything. */
  lemma NothingDown(s: Setup, states: seq<Member>)
    requires s.Sniffs() && |states| == |s.Engines()| && states[1] == Unscanned && (s.Masks() ==> states[2] == Masked([]))
    ensures Drain(s.Engines(), states, [], 1) == Drained(states, [])
  {
    hide MaskFrom, Setup.Engines;
    Layout(s);
    MaskNothing(s.Kept());
    var es := s.Engines();
    assert states[1 := Unscanned] == states;
    if s.Masks() {
      assert states[2 := Masked([])] == states;
      assert PassOn(es, states, [], 2) == PassOn(es, states, [], 3) == Passed(states, []);
      assert FlushDown(es, states, [], 2) == FlushDown(es, states, [], 3) == Drained(states, []);
    }
    assert PassOn(es, states, [], 1) == PassOn(es, states, [], 2);
    assert FlushDown(es, states, [], 1) == FlushDown(es, states, [], 2);
  }

  lemma NothingPassed(s: Setup, stages: seq<seq<Bytes>>, rest: Bytes)
    requires s.Sniffs() && AllLinked(s.Engines(), s.Starts(), stages, 0, 0, rest)
    requires !Answer(s.Engines(), s.Starts(), stages, 0, rest).Passed?
    ensures forall k | 1 <= k < |stages| :: stages[k] == []
    ensures var r := Answer(s.Engines(), s.Starts(), stages, 0, rest); r.Blocked? && r.out == []
  {
    hide Solid, AllLinked, Setup.Engines, Setup.Starts;
    Layout(s);
    Links(s, stages, 0, 0, rest);
    assert stages[1] + [] == stages[1];
    SniffRun(s.detect, s.banned, stages[0]);
    EmptyConcat(Outs(s.Engines()[0], Unsniffed, stages[0]));
  }

  lemma RefusedType(s: Setup, input: seq<Bytes>, stages: seq<seq<Bytes>>, rest: Bytes)
    requires s.Sniffs() && AllLinked(s.Engines(), s.Starts(), stages, 0, 0, rest)
    requires !Answer(s.Engines(), s.Starts(), stages, 0, rest).Passed? && stages[0] + Solid(rest) <= input
    ensures s.Bans(Concat(input)) && |Concat(input)| >= SNIFF
  {
    hide AllLinked, SniffProcess, SniffStep, Runs, Outs, StateAfter, Solid, Setup.Engines, Setup.Starts;
    Layout(s);
    Links(s, stages, 0, 0, rest);
    var seen := Concat(stages[0]);
    SniffRun(s.detect, s.banned, stages[0]);
    SniffOne(s.detect, s.banned, seen, rest);
    var begun := stages[0] + Solid(rest);
    ConcatAppend(stages[0], Solid(rest));
    assert input == begun + input[|begun|..];
    ConcatAppend(begun, input[|begun|..]);
    RefusedStays(s.detect, s.banned, seen + rest, Concat(input[|begun|..]));
  }

  /** What the phrase filter refuses ends at the first block of what it was given; all before it had passed. */
  lemma PhraseAnswer(s: Setup, given: seq<Bytes>, next: seq<Bytes>, rest: Bytes)
    requires s.Valid() && Linked(PhraseEngine(s.nodes, s.threshold), Unscanned, given, next, false)
    requires var e := PhraseEngine(s.nodes, s.threshold); !e.process(StateAfter(e, Unscanned, given), rest).Passed?
    ensures var e := PhraseEngine(s.nodes, s.threshold); var r, seen := e.process(StateAfter(e, Unscanned, given), rest), Concat(given);
      r.Blocked? && r.out <= rest && r.out != [] && s.BlocksAt(seen + rest, |seen| + |r.out|)
    ensures Concat(next) == Concat(given)
  {
    hide PhraseProcess, Runs, Outs, StateAfter, Solid, Stands, IsAutomaton, PhraseStreams.FirstBlock32, PhraseStreams.NoBlock32;
    var e := PhraseEngine(s.nodes, s.threshold);
    PhraseRun(s.nodes, s.id, s.entries, s.threshold, given);
    PhraseOne(s.nodes, s.id, s.entries, s.threshold, Concat(given), StateAfter(e, Unscanned, given), rest);
    assert next == Outs(e, Unscanned, given);
  }

  /** While chunks come in: what the phrase filter was given begins the stream, whose type may pass; a sniffer has seen enough of it. */
  lemma ShownSoFar(s: Setup, input: seq<Bytes>, stages: seq<seq<Bytes>>, rest: Bytes)
    requires AllLinked(s.Engines(), s.Starts(), stages, 0, s.Place(), rest) && rest != []
    requires StageAt(stages, 0, s.Place(), rest) <= input
    ensures var seen, t := Concat(stages[s.Place()]) + rest, Concat(input); seen <= t && !s.Bans(t) && (s.Sniffs() ==> |t| >= SNIFF)
  {
    hide AllLinked, Runs, Outs, StateAfter, Solid, SniffEngine, Setup.Engines, Setup.Starts;
    Links(s, stages, 0, s.Place(), rest);
    ConcatAppend(stages[s.Place()], Solid(rest));
    var begun := StageAt(stages, 0, s.Place(), rest);
    var more := input[|begun|..];
    assert input == begun + more;
    ConcatAppend(begun, more);
    if s.Sniffs() {
      assert begun == stages[0] + [] == stages[0];
      SniffRun(s.detect, s.banned, stages[0]);
      var seen, shown := Concat(stages[0]), Outs(SniffEngine(s.detect, s.banned), Unsniffed, stages[0]);
      assert shown + [] == shown;
      assert Concat(stages[1]) + rest == Shown(seen) && |Concat(stages[1]) + rest| > 0;
      SniffStable(seen, Concat(more));
    }
  }

  /** At the end: what the sniffer had kept is the whole stream, short and of a type that may pass. */
  lemma ShownAtEnd(s: Setup, stages: seq<seq<Bytes>>, rest: Bytes)
    requires s.Sniffs() && AllLinked(s.Engines(), s.Starts(), stages, 1, 1, rest) && rest != []
    requires FromFlush(s.Engines(), s.Starts(), stages, 0)
    ensures stages[1] == [] && rest == Concat(stages[0]) && |rest| < SNIFF && !s.Bans(rest)
  {
    hide AllLinked, Runs, Outs, StateAfter, Setup.Engines, Setup.Starts;
    Layout(s);
    Links(s, stages, 1, 1, rest);
    var e, input := SniffEngine(s.detect, s.banned), stages[0];
    SniffRun(s.detect, s.banned, input);
    var before, kept := Outs(e, Unsniffed, input), FlushOut(e, StateAfter(e, Unsniffed, input));
    assert stages[1] + [rest] == before + kept;
    assert |kept| == 1 && stages[1] == before && kept == [rest] by {
      assert (stages[1] + [rest])[|stages[1]|] == rest;
      assert stages[1] == (before + kept)[..|stages[1]|];
    }
    EmptyConcat(before);
  }

  /** What is drained after a block is masked with what had already come out. */
  lemma DrainMasks(s: Setup, stages: seq<seq<Bytes>>, states: seq<Member>, piece: Bytes)
    requires |stages| == |s.Engines()| + 1 == |states| + 1 == s.Place() + 2 + (if s.Masks() then 1 else 0) && piece != []
    requires s.Masks() ==> var e, p := MaskEngine(s.Kept(), s.MaxLen()), s.Place() + 1;
      Linked(e, Masked([]), stages[p], stages[p + 1], false) && states[p] == StateAfter(e, Masked([]), stages[p])
    ensures var d := Drain(s.Engines(), states, piece, s.Place() + 1);
      d.Drained? && var given, out := Concat(stages[s.Place() + 1]) + piece, Concat(stages[|states|]) + d.out;
      StarredFrom(s.Kept(), given, out) && NoSurvivors(s.Kept(), out)
  {
    hide MaskFrom, Flow, StarredFrom, NoSurvivors, Runs, Outs, StateAfter, Fit, Setup.Engines, Drain;
    var p := s.Place() + 1;
    if s.Masks() {
      KeptFit(s.phrases);
      var sent := Concat(stages[p + 1]);
      MaskRun(s.Kept(), s.MaxLen(), stages[p]);
      var pending := states[p].pending;
      assert stages[p + 1] == Outs(MaskEngine(s.Kept(), s.MaxLen()), Masked([]), stages[p]);
      var t := MaskFrom(s.Kept(), pending + piece, 0);
      var n := Leaving(s.MaxLen(), t);
      FlowStep(s.Kept(), s.MaxLen(), Concat(stages[p]), sent, pending, piece);
      FlowEnd(s.Kept(), s.MaxLen(), Concat(stages[p]) + piece, sent + t[..n], t[n..]);
      DrainLast(s, states, piece);
      assert sent + (t[..n] + MaskFrom(s.Kept(), t[n..], 0)) == sent + t[..n] + MaskFrom(s.Kept(), t[n..], 0);
    } else {
      Unmasked(s, Concat(stages[p]) + piece);
      NoneBehind(s, states, piece);
    }
  }

  lemma NoneBehind(s: Setup, states: seq<Member>, piece: Bytes)
    requires !s.Masks() && |states| == |s.Engines()|
    ensures s.Place() + 1 == |states| && Drain(s.Engines(), states, piece, s.Place() + 1) == Drained(states, piece)
  {
    hide Setup.Engines;
    Layout(s);
  }

  lemma DrainLast(s: Setup, states: seq<Member>, piece: Bytes)
    requires s.Masks() && |states| == |s.Engines()| == s.Place() + 2 && states[s.Place() + 1].Masked? && piece != []
    ensures var t := MaskFrom(s.Kept(), states[s.Place() + 1].pending + piece, 0); var n := Leaving(s.MaxLen(), t);
      var d := Drain(s.Engines(), states, piece, s.Place() + 1); d.Drained? && d.out == t[..n] + MaskFrom(s.Kept(), t[n..], 0)
  {
    hide MaskFrom, Setup.Engines;
    Layout(s);
    var es, p := s.Engines(), s.Place() + 1;
    var t := MaskFrom(s.Kept(), states[p].pending + piece, 0);
    var n := Leaving(s.MaxLen(), t);
    var passed := states[p := Masked(t[n..])];
    assert PassOn(es, states, piece, p) == PassOn(es, passed, t[..n], p + 1) == Passed(passed, t[..n]);
    var done := passed[p := Masked([])];
    assert FlushDown(es, passed, t[..n], p) == FlushDown(es, done, t[..n] + MaskFrom(s.Kept(), t[n..], 0), p + 1);
  }

  /** A phrase blocked: what comes out is the stream up to there, masked, unless a sniffer had held it back to its end. */
  lemma PhraseRefused(s: Setup, input: seq<Bytes>, end: Ending, out: Bytes, outcome: Outcome)
    requires s.Valid() && |s.Starts()| == |s.Engines()| && Ended(s.Engines(), s.Starts(), input, end, out, outcome) && outcome != Ok
    requires end.why.Refusal? && end.why.at == s.Place() && end.why.flushed <= s.Place()
    requires AllLinked(s.Engines(), s.Starts(), end.stages, end.why.flushed, s.Place(), end.why.rest)
    ensures outcome == Stopped && !s.Bans(Concat(input)) && !s.Quiet(Concat(input))
    ensures forall i | s.BlocksAt(Concat(input), i) ::
      if s.Sniffs() && |Concat(input)| < SNIFF then out == Concat(input)[..i]
      else StarredFrom(s.Kept(), Concat(input)[..i], out) && NoSurvivors(s.Kept(), out)
  {
    hide AllLinked, Linked, Solid, StarredFrom, NoSurvivors, Runs, Outs, StateAfter, IsAutomaton, Fit, FromFlush, Drain, Concat,
      SniffEngine, PhraseEngine, MaskEngine, PhraseStreams.FirstBlock32, PhraseStreams.NoBlock32, BannedType, Setup.Engines, Setup.Starts, StageAt;
    var es, st, p, stages, rest, t := s.Engines(), s.Starts(), s.Place(), end.stages, end.why.rest, Concat(input);
    Layout(s);
    Links(s, stages, end.why.flushed, p, rest);
    PhraseAnswer(s, stages[p], stages[p + 1], rest);
    var r, seen := Answer(es, st, stages, p, rest), Concat(stages[p]);
    var i := |seen| + |r.out|;
    if end.why.flushed == 0 {
      ShownSoFar(s, input, stages, rest);
      DrainMasks(s, stages, Current(es, st, stages)[p := r.state], r.out);
    } else {
      ShownAtEnd(s, stages, rest);
      NothingOut(s, stages);
    }
    BlockStays(s.entries, s.threshold, seen + rest, i, t[|seen + rest|..]);
    assert t == seen + rest + t[|seen + rest|..];
    assert t[..i] == seen + r.out;
  }

  lemma NothingOut(s: Setup, stages: seq<seq<Bytes>>)
    requires |stages| == s.Place() + 2 + (if s.Masks() then 1 else 0) && stages[s.Place()] == []
    requires Linked(PhraseEngine(s.nodes, s.threshold), Unscanned, stages[s.Place()], stages[s.Place() + 1], false)
    requires s.Masks() ==>
      Linked(MaskEngine(s.Kept(), s.MaxLen()), Masked([]), stages[s.Place() + 1], stages[s.Place() + 2], false)
    ensures Concat(stages[s.Place()]) == [] && Concat(stages[|stages| - 1]) == []
  {
  }

  // ---------------------------------------------------------------- the whole

  /** A sniffer held the stream back to its end, its type may pass, and it is blocked after a star-free phrase that was to be masked. */
  ghost predicate Exposed(s: Setup, t: Bytes)
  {
    s.Sniffs() && |t| < SNIFF && !s.Bans(t) && exists i :: s.BlocksAt(t, i) && !NoSurvivors(s.phrases, t[..i])
  }

  /** What the run of a stream t gives. */
  ghost predicate Filtered(s: Setup, phrases: seq<Bytes>, t: Bytes, out: Bytes, outcome: Outcome)
  {
    if s.Bans(t) then out == [] && outcome == (if |t| >= SNIFF then Stopped else Ok)
    else if s.Quiet(t) then outcome == Ok && StarredFrom(phrases, t, out) && NoSurvivors(phrases, out)
    else
      && outcome == Stopped
      && forall i | s.BlocksAt(t, i) ::
           if s.Sniffs() && |t| < SNIFF then out == t[..i] else StarredFrom(phrases, t[..i], out) && NoSurvivors(phrases, out)
  }

  /** No star-free phrase is left in the output exactly if the stream is not exposed. */
  lemma MaskedIff(s: Setup, t: Bytes, out: Bytes, outcome: Outcome)
    requires Filtered(s, s.phrases, t, out, outcome)
    ensures NoSurvivors(s.phrases, out) <==> !Exposed(s, t)
  {
    hide StarredFrom, PhraseStreams.FirstBlock32, PhraseStreams.NoBlock32, BannedType;
    if s.Bans(t) {
      NothingSurvives(s.phrases);
    } else if s.Quiet(t) {
      if i :| s.BlocksAt(t, i) {
        QuietNoBlock(s, t, i);
      }
    } else {
      var i := SomeFirst(s.entries, s.threshold, t);
      BlockStays(s.entries, s.threshold, t, i, []);
      assert t + [] == t && s.BlocksAt(t, i);
    }
  }

  lemma NothingSurvives(phrases: seq<Bytes>)
    ensures NoSurvivors(phrases, [])
  {
  }

  lemma QuietNoBlock(s: Setup, t: Bytes, i: int)
    requires s.Quiet(t)
    ensures !s.BlocksAt(t, i)
  {
  }

  /**
   ContentFilter with blocked phrases, with or without banned types and phrases to mask, run on a stream in any chunks.
   Of a banned type nothing comes out; a stream nothing blocks comes out masked and whole; a blocked one comes out
   through the end of the phrase that blocks it, and is masked if and only if it is not exposed.
   */
  method FilterPhrases(s: Setup, chunks: seq<Bytes>) returns (out: Bytes, outcome: Outcome)
    requires s.Valid()
    ensures Filtered(s, s.phrases, Concat(chunks), out, outcome)
    ensures NoSurvivors(s.phrases, out) <==> !Exposed(s, Concat(chunks))
  {
    hide Smooth, Composed, Inert, Explains, Consequence, AllLinked, IsAutomaton, StarredFrom, NoSurvivors, Exposed, Filtered, Setup.Kept,
      Setup.Engines, Setup.Starts;
    Layout(s);
    AllInert(s);
    SmoothComposition(s, Solids(chunks));
    SolidsSpell(chunks);
    ghost var end := Ending([], NoTrouble, []);
    out, outcome, end := RunChain(s.Engines(), s.Starts(), chunks);
    if outcome == Ok {
      WentOut(s, Concat(chunks), out);
    } else {
      Stopping(s, Solids(chunks), end, out, outcome);
    }
    Concluded(s, Concat(chunks), out, outcome);
    MaskedIff(s, Concat(chunks), out, outcome);
  }

  /** Dropping empty phrases makes no difference. */
  lemma Concluded(s: Setup, t: Bytes, out: Bytes, outcome: Outcome)
    requires Filtered(s, s.Kept(), t, out, outcome)
    ensures Filtered(s, s.phrases, t, out, outcome)
  {
    hide StarredFrom, NoSurvivors, NonEmpty, PhraseStreams.FirstBlock32, PhraseStreams.NoBlock32, BannedType;
    if !s.Bans(t) {
      if s.Quiet(t) {
        NonEmptyMasks(s.phrases, t, out);
      } else if !(s.Sniffs() && |t| < SNIFF) {
        forall i | s.BlocksAt(t, i)
          ensures StarredFrom(s.phrases, t[..i], out) && NoSurvivors(s.phrases, out)
        {
          NonEmptyMasks(s.phrases, t[..i], out);
        }
      }
    }
  }

  lemma WentOut(s: Setup, t: Bytes, out: Bytes)
    requires MayPass(s.detect, s.banned, t) && (s.Bans(t) || s.Quiet(t))
    requires StarredFrom(s.Kept(), if s.Bans(t) then [] else t, out) && NoSurvivors(s.Kept(), out)
    ensures Filtered(s, s.Kept(), t, out, Ok)
  {
    StarredShape(s.Kept(), if s.Bans(t) then [] else t, out);
  }

  lemma Stopping(s: Setup, input: seq<Bytes>, end: Ending, out: Bytes, outcome: Outcome)
    requires s.Valid() && outcome != Ok && |s.Starts()| == |s.Engines()| && Ended(s.Engines(), s.Starts(), input, end, out, outcome)
    ensures Filtered(s, s.Kept(), Concat(input), out, outcome)
  {
    hide AllLinked, StarredFrom, NoSurvivors, IsAutomaton, Ended, Concat, PhraseStreams.FirstBlock32, PhraseStreams.NoBlock32, BannedType,
      Setup.Engines, Setup.Starts, Setup.Kept;
    WhoRefuses(s, input, end, out, outcome);
    if end.why.at < s.Place() {
      SnifferRefused(s, input, end, out, outcome);
    } else {
      PhraseRefused(s, input, end, out, outcome);
    }
  }

  // ---------------------------------------------------------------- behind a reader

  /** A sniffer that blocks puts out nothing and has nothing left. */
  lemma SniffBlock(s: Setup, m: Member, c: Bytes)
    requires SniffProcess(s.detect, s.banned, m, c).Blocked?
    ensures var r := SniffProcess(s.detect, s.banned, m, c);
      r.out == [] && SniffFlush(s.detect, s.banned, r.state) == Flushed(r.state, [])
  {
  }

  /** After a block of the phrase filter something always comes out: the masker gives back all it is given and has kept. */
  lemma DrainShows(s: Setup, states: seq<Member>, piece: Bytes)
    requires |states| == |s.Engines()| && piece != []
    ensures s.Place() < |states|
    ensures var d := Drain(s.Engines(), states, piece, s.Place() + 1); d.Drained? && d.out != []
  {
    hide MaskFrom, Setup.Engines;
    Layout(s);
    var es, p := s.Engines(), s.Place() + 1;
    if !s.Masks() {
      NoneBehind(s, states, piece);
    } else if states[p].Masked? {
      DrainLast(s, states, piece);
    } else {
      assert states[p := states[p]] == states;
      assert PassOn(es, states, piece, p) == PassOn(es, states, piece, p + 1) == Passed(states, piece);
      assert FlushDown(es, states, piece, p) == FlushDown(es, states, piece + [], p + 1);
    }
  }

  /** Where the member behind the phrase filter stands after it was flushed: it has nothing left. */
  predicate Emptied(s: Setup, states: seq<Member>)
  {
    var p := s.Place() + 1;
    |states| == |s.Engines()| && (s.Masks() && p < |states| && states[p].Masked? ==> states[p].pending == [])
  }

  /** Nothing drained through the members behind the sniffer: if nothing comes out of it, nothing is left in them. */
  lemma DrainEmpties(s: Setup, states: seq<Member>)
    requires s.Sniffs() && |states| == |s.Engines()|
    ensures var d := Drain(s.Engines(), states, [], 1); d.Drained? && (d.out == [] ==> Emptied(s, d.states) && d.states[0] == states[0])
  {
    hide MaskFrom, Setup.Engines;
    Layout(s);
    var es := s.Engines();
    assert states[1 := states[1]] == states;
    assert PassOn(es, states, [], 1) == PassOn(es, states, [], 2);
    if s.Masks() {
      assert states[2 := states[2]] == states;
      assert PassOn(es, states, [], 2) == PassOn(es, states, [], 3) == Passed(states, []);
    }
    assert FlushDown(es, states, [], 1) == FlushDown(es, states, [], 2);
    if s.Masks() {
      var f := MaskFlush(s.Kept(), states[2]);
      assert FlushDown(es, states, [], 2) == FlushDown(es, states[2 := f.state], [] + f.out, 3) == Drained(states[2 := f.state], [] + f.out);
    }
  }

  /** Then a flush of the chain gives nothing. */
  lemma FlushesNothing(s: Setup, states: seq<Member>)
    requires Emptied(s, states) && (s.Sniffs() ==> |states| > 0 && SniffFlush(s.detect, s.banned, states[0]) == Flushed(states[0], []))
    ensures FlushAll(s.Engines(), states, [], 0) == Flushed(states, [])
  {
    hide Setup.Engines, FlushAll, FlushOne, Emptied, SniffFlush;
    var es, p := s.Engines(), s.Place();
    FlushesAlone(s, states);
    SilentFlush(es, states, p);
    if s.Masks() {
      SilentFlush(es, states, p + 1);
    }
    if s.Sniffs() {
      SilentFlush(es, states, 0);
    }
    FlushEnd(es, states);
  }

  /** Each member by itself. */
  lemma FlushesAlone(s: Setup, states: seq<Member>)
    requires Emptied(s, states) && (s.Sniffs() ==> |states| > 0 && SniffFlush(s.detect, s.banned, states[0]) == Flushed(states[0], []))
    ensures |states| == s.Place() + 1 + (if s.Masks() then 1 else 0)
    ensures s.Sniffs() ==> FlushOne(s.Engines(), states, 0) == Passed(states, [])
    ensures FlushOne(s.Engines(), states, s.Place()) == Passed(states, [])
    ensures s.Masks() ==> FlushOne(s.Engines(), states, s.Place() + 1) == Passed(states, [])
  {
    hide MaskFrom, Setup.Engines, SniffFlush, PassOn;
    Layout(s);
    MaskNothing(s.Kept());
    assert s.Sniffs() ==> states[0 := states[0]] == states;
    if s.Masks() {
      assert states[s.Place() + 1 := states[s.Place() + 1]] == states;
    }
  }

  /** In whatever state: a chain that blocks without putting anything out has nothing left to flush. */
  lemma ChainBlock(s: Setup, states: seq<Member>, c: Bytes)
    requires |states| == |s.Engines()|
    ensures match ProcessAll(s.Engines(), states, c, 0)
      case Blocked(after, out) => |after| == |states| && (out == [] ==> FlushAll(s.Engines(), after, [], 0) == Flushed(after, []))
      case _ => true
  {
    hide MaskFrom, Setup.Engines, Drain, FlushAll, SniffFlush, SniffStep, PhraseStreams.ScanChunk;
    Layout(s);
    var es := s.Engines();
    if s.Sniffs() {
      var r := SniffProcess(s.detect, s.banned, states[0], c);
      if r.Blocked? {
        SniffBlock(s, states[0], c);
        DrainEmpties(s, states[0 := r.state]);
        var d := Drain(es, states[0 := r.state], [], 1);
        if d.out == [] {
          FlushesNothing(s, d.states);
        }
      } else if r.out != [] {
        PhraseBlocks(s, states[0 := r.state], r.out);
      }
    } else {
      PhraseBlocks(s, states, c);
    }
  }

  lemma PhraseBlocks(s: Setup, states: seq<Member>, c: Bytes)
    requires |states| == |s.Engines()|
    ensures s.Place() < |states|
    ensures var r := ProcessAll(s.Engines(), states, c, s.Place()); r.Blocked? ==> r.out != []
  {
    hide MaskFrom, Setup.Engines, Drain, PhraseStreams.ScanFrom;
    Layout(s);
    var es, p := s.Engines(), s.Place();
    var r := PhraseProcess(s.nodes, s.threshold, states[p], c);
    if r.Blocked? {
      DrainShows(s, states[p := r.state], r.out);
    } else if s.Masks() {
      assert !ProcessAll(es, states[p := r.state], r.out, p + 1).Blocked?;
    }
  }

  /** So a reader in front of the whole chain always delivers exactly what is due, however end of file is reported. */
  lemma ChainIsSilent(s: Setup, src: seq<InspectReaders.Chunk>)
    ensures var e := Driven(AsOne(s.Engines()));
      InspectReaders.Served(e, s.Starts(), src) == InspectReaders.Due(e, s.Starts(), src)
  {
    hide Setup.Engines, Setup.Starts, ProcessAll, FlushAll;
    var e := Driven(AsOne(s.Engines()));
    forall states: seq<Member>, c: Bytes
      ensures var r := e.process(states, c);
        r.Step? && r.blocked && InspectReaders.Value(r.out, c) == [] ==> InspectReaders.FlushOf(e, r.state) == InspectReaders.NOTHING
    {
      if |states| == |s.Engines()| {
        ChainBlock(s, states, c);
      }
    }
    InspectReaders.SilentEngineIsDue(e, s.Starts(), src);
  }

  // ---------------------------------------------------------------- a short stream, blocked

  /** With only "b" blocked, a text is blocked where it ends in "b" and nowhere before. */
  lemma BlockedB(es: seq<Entry>, threshold: int)
    requires es == [Entry([LETTER_B], 0, true, false)]
    ensures PhraseStreams.FirstBlock32(es, threshold, [LETTER_A, LETTER_B], 2)
  {
    var a, t := [LETTER_A], [LETTER_A, LETTER_B];
    PhraseStreams.NothingBlocks(es, threshold);
    assert t[..0] == [] && t[..1] == a && t[..2] == t;
    assert Fold(a) == a && Fold(t) == t;
    PhraseStreams.LastByte(a, es[0].text, LETTER_A);
    PhraseStreams.LastByte(t, es[0].text, LETTER_B);
    assert es[..|es| - 1] == es[..0] && ScoreAt(es[..0], a) == 0;
    assert ScoreAt(es, a) == 0;
  }

  /** "ab" with a type banned, "a" to be masked and "b" blocked comes out as it is, the phrase to be masked with it. */
  method ShortBlockUnmasked() returns (out: Bytes, outcome: Outcome)
    ensures out == [LETTER_A, LETTER_B] && outcome == Stopped && !NoSurvivors([[LETTER_A]], out)
  {
    hide IsAutomaton, PhraseStreams.FirstBlock32, PhraseStreams.NoBlock32, StarredFrom;
    var filter := PhraseFilters.NewPhraseFilter([[LETTER_B]], [], [], 0);
    var s := Setup(_ => "", {"executable/elf"}, filter.nodes, filter.id, filter.entries, 0, [[LETTER_A]]);
    var t := [LETTER_A, LETTER_B];
    BlockedB(s.entries, 0);
    BlockStays(s.entries, 0, t, 2, []);
    assert t + [] == t && t[..2] == t && s.BlocksAt(t, 2);
    assert Concat([t]) == t + Concat([]);
    out, outcome := FilterPhrases(s, [t]);
    assert FoldsAt([LETTER_A], t, 0) && Survives([[LETTER_A]][0], t);
  }
}
