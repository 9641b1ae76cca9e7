/**
 A content filter as it is put together: the sniffer in front of the masker, as members of a chain. The abstract
 promise of a chain becomes one about the stream: it comes out masked, whole, and only if its type may pass.
 */
module ContentChains {

  import opened Options
  import opened Bytes
  import opened Chains
  import opened Magic
  import opened Masking
  import InspectReaders
  import PhraseStreams

  /** The state of a member. */
  datatype Member = Sniffing(sniffer: Sniffer) | Scanning(regs: PhraseStreams.Registers) | Masked(pending: Bytes)

  function SniffProcess(detect: Bytes -> string, banned: set<string>, m: Member, c: Bytes): Step<Member>
  {
    match m
    case Sniffing(s) =>
      var a := SniffStep(detect, banned, s, c);
      if a.stop then Blocked(Sniffing(a.state), a.out) else Passed(Sniffing(a.state), a.out)
    case _ => Passed(m, c)
  }

  /** A type banned at the end of a short stream drops the stream; the flush itself succeeds. */
  function SniffFlush(detect: Bytes -> string, banned: set<string>, m: Member): Flushed<Member>
  {
    match m
    case Sniffing(s) => var a := SniffEnd(detect, banned, s); Flushed(Sniffing(a.state), a.out)
    case _ => Flushed(m, [])
  }

  function SniffEngine(detect: Bytes -> string, banned: set<string>): Engine<Member>
  {
    Engine((m: Member, c: Bytes) => SniffProcess(detect, banned, m, c), Some((m: Member) => SniffFlush(detect, banned, m)))
  }

  function MaskProcess(phrases: seq<Bytes>, maxLen: nat, m: Member, c: Bytes): Step<Member>
  {
    match m
    case Masked(pending) =>
      if c == [] then Passed(m, [])
      else
        var t := MaskFrom(phrases, pending + c, 0);
        var n := Leaving(maxLen, t);
        Passed(Masked(t[n..]), t[..n])
    case _ => Passed(m, c)
  }

  function MaskFlush(phrases: seq<Bytes>, m: Member): Flushed<Member>
  {
    match m
    case Masked(pending) => Flushed(Masked([]), MaskFrom(phrases, pending, 0))
    case _ => Flushed(m, [])
  }

  function MaskEngine(phrases: seq<Bytes>, maxLen: nat): Engine<Member>
  {
    Engine((m: Member, c: Bytes) => MaskProcess(phrases, maxLen, m, c), Some((m: Member) => MaskFlush(phrases, m)))
  }

  const Unsniffed := Sniffing(Sniffer([], false, false))

  /** The stream's type, by its first bytes, is banned. */
  predicate BannedType(detect: Bytes -> string, banned: set<string>, t: Bytes)
  {
    detect(Sniffed(t)) in banned
  }

  // ---------------------------------------------------------------- each member on a stream

  /** One more chunk: it lets the list through exactly if it let the rest through and passes this one. */
  lemma RunsLast<S(!new)>(e: Engine<S>, s: S, chunks: seq<Bytes>)
    requires chunks != []
    ensures var front, c := chunks[..|chunks| - 1], chunks[|chunks| - 1];
      Runs(e, s, chunks) <==> Runs(e, s, front) && e.process(StateAfter(e, s, front), c).Passed?
  {
    var front, c := chunks[..|chunks| - 1], chunks[|chunks| - 1];
    assert forall i | 0 <= i < |front| :: front[..i] == chunks[..i];
    if Runs(e, s, front) && e.process(StateAfter(e, s, front), c).Passed? {
      RunsSnoc(e, s, front, c);
      assert chunks == front + [c];
    }
  }

  /** Where the sniffer stands after letting t through, and what it has put out. */
  function Held(t: Bytes): Sniffer
  {
    if |t| < SNIFF then Sniffer(t, false, false) else Sniffer([], true, false)
  }

  function Shown(t: Bytes): Bytes
  {
    if |t| < SNIFF then [] else t
  }

  predicate MayPass(detect: Bytes -> string, banned: set<string>, t: Bytes)
  {
    |t| < SNIFF || !BannedType(detect, banned, t)
  }

  lemma SniffOne(detect: Bytes -> string, banned: set<string>, t: Bytes, c: Bytes)
    requires MayPass(detect, banned, t)
    ensures var r := SniffProcess(detect, banned, Sniffing(Held(t)), c);
      && (r.Passed? <==> MayPass(detect, banned, t + c))
      && (r.Passed? ==> r.state == Sniffing(Held(t + c)) && Shown(t) + r.out == Shown(t + c))
  {
    if |t| >= SNIFF {
      SniffStable(t, c);
    } else if c == [] {
      assert t + c == t;
    } else if |t + c| >= SNIFF {
      assert (t + c)[..SNIFF] + (t + c)[SNIFF..] == t + c && Sniffed(t + c) == (t + c)[..SNIFF];
    }
  }

  lemma RefusedStays(detect: Bytes -> string, banned: set<string>, t: Bytes, c: Bytes)
    requires !MayPass(detect, banned, t)
    ensures !MayPass(detect, banned, t + c)
  {
    SniffStable(t, c);
  }

  /** The sniffer lets chunks through exactly while they are few bytes or of a type that may pass, holding or passing them all. */
  lemma {:induction false} SniffRun(detect: Bytes -> string, banned: set<string>, chunks: seq<Bytes>)
    ensures var e, t := SniffEngine(detect, banned), Concat(chunks);
      && (Runs(e, Unsniffed, chunks) <==> MayPass(detect, banned, t))
      && (Runs(e, Unsniffed, chunks) ==>
            StateAfter(e, Unsniffed, chunks) == Sniffing(Held(t)) && Concat(Outs(e, Unsniffed, chunks)) == Shown(t))
  {
    hide Solid, SniffProcess, MayPass, Runs;
    var e := SniffEngine(detect, banned);
    if chunks == [] {
      NothingSniffed(detect, banned);
    } else {
      var front, c := chunks[..|chunks| - 1], chunks[|chunks| - 1];
      assert chunks == front + [c];
      ConcatSnoc(front, c);
      SniffRun(detect, banned, front);
      RunsLast(e, Unsniffed, chunks);
      if Runs(e, Unsniffed, front) {
        SniffOne(detect, banned, Concat(front), c);
        var r := SniffProcess(detect, banned, Sniffing(Held(Concat(front))), c);
        ConcatAppend(Outs(e, Unsniffed, front), if r.Passed? then Solid(r.out) else []);
      } else {
        RefusedStays(detect, banned, Concat(front), c);
      }
    }
  }

  lemma NothingSniffed(detect: Bytes -> string, banned: set<string>)
    ensures Runs(SniffEngine(detect, banned), Unsniffed, []) && MayPass(detect, banned, [])
  {
  }

  /** The masker lets everything through, and what it put out and keeps is the masked stream. */
  lemma {:induction false} MaskRun(phrases: seq<Bytes>, maxLen: nat, chunks: seq<Bytes>)
    requires Fit(phrases, maxLen)
    ensures var e := MaskEngine(phrases, maxLen); var s := StateAfter(e, Masked([]), chunks);
      && Runs(e, Masked([]), chunks) && s.Masked?
      && Flow(phrases, maxLen, Concat(chunks), Concat(Outs(e, Masked([]), chunks)), s.pending)
  {
    hide Solid, Flow, MaskFrom;
    var e := MaskEngine(phrases, maxLen);
    if chunks == [] {
      FlowStart(phrases, maxLen);
    } else {
      var front, c := chunks[..|chunks| - 1], chunks[|chunks| - 1];
      assert chunks == front + [c];
      ConcatSnoc(front, c);
      MaskRun(phrases, maxLen, front);
      RunsLast(e, Masked([]), chunks);
      var s := StateAfter(e, Masked([]), front);
      var r := e.process(s, c);
      ConcatAppend(Outs(e, Masked([]), front), Solid(r.out));
      var sent := Concat(Outs(e, Masked([]), front));
      FlowStep(phrases, maxLen, Concat(front), sent, s.pending, c);
      if c == [] {
        assert Concat(front) + c == Concat(front) && sent + r.out == sent;
      }
      assert Concat(Outs(e, Masked([]), chunks)) == sent + r.out;
    }
  }

  /** Both are the kind of member a chain may have. */
  lemma MembersInert(detect: Bytes -> string, banned: set<string>, phrases: seq<Bytes>, maxLen: nat)
    requires Fit(phrases, maxLen)
    ensures Inert(SniffEngine(detect, banned), Unsniffed) && Inert(MaskEngine(phrases, maxLen), Masked([]))
  {
    forall chunks: seq<Bytes>
      ensures var e := SniffEngine(detect, banned); Runs(e, Unsniffed, chunks) ==>
        e.process(StateAfter(e, Unsniffed, chunks), []) == Passed(StateAfter(e, Unsniffed, chunks), [])
    {
      SniffRun(detect, banned, chunks);
    }
    forall chunks: seq<Bytes>
      ensures var e := MaskEngine(phrases, maxLen); Runs(e, Masked([]), chunks) ==>
        e.process(StateAfter(e, Masked([]), chunks), []) == Passed(StateAfter(e, Masked([]), chunks), [])
    {
      MaskRun(phrases, maxLen, chunks);
    }
  }

  // ---------------------------------------------------------------- the two together

  function Pair(detect: Bytes -> string, banned: set<string>, phrases: seq<Bytes>, maxLen: nat): seq<Engine<Member>>
  {
    [SniffEngine(detect, banned), MaskEngine(phrases, maxLen)]
  }

  const Starts := [Unsniffed, Masked([])]

  /** The member behind the sniffer is given what passes it, in order: the stream, or nothing of a short one whose type is banned. */
  lemma SecondStage(detect: Bytes -> string, banned: set<string>, engines: seq<Engine<Member>>, starts: seq<Member>, input: seq<Bytes>)
    requires 0 < |engines| == |starts| && engines[0] == SniffEngine(detect, banned) && starts[0] == Unsniffed
    requires Runs(engines[0], Unsniffed, input)
    ensures Concat(Composed(engines, starts, input, 1)) == if BannedType(detect, banned, Concat(input)) then [] else Concat(input)
  {
    hide Solid, Outs, Runs;
    var e, t := SniffEngine(detect, banned), Concat(input);
    SniffRun(detect, banned, input);
    var s := StateAfter(e, Unsniffed, input);
    assert Composed(engines, starts, input, 0) == input;
    ConcatAppend(Outs(e, Unsniffed, input), FlushOut(e, s));
    assert Sniffed(t) == t || |t| >= SNIFF;
  }

  /** The composition runs smoothly unless a long stream's type is banned. */
  lemma SmoothIff(detect: Bytes -> string, banned: set<string>, phrases: seq<Bytes>, maxLen: nat, input: seq<Bytes>)
    requires Fit(phrases, maxLen)
    ensures Smooth(Pair(detect, banned, phrases, maxLen), Starts, input) <==> MayPass(detect, banned, Concat(input))
  {
    hide Runs, StateAfter, MayPass, Concat, Flow, Composed, Smooth, SniffEngine, MaskEngine, FlushOk;
    var es := Pair(detect, banned, phrases, maxLen);
    var given := Composed(es, Starts, input, 1);
    SmoothTwo(es, input);
    SniffRun(detect, banned, input);
    MaskRun(phrases, maxLen, given);
    MembersFlush(detect, banned, phrases, maxLen, StateAfter(es[0], Unsniffed, input));
    MembersFlush(detect, banned, phrases, maxLen, StateAfter(es[1], Masked([]), given));
  }

  lemma SmoothTwo(engines: seq<Engine<Member>>, input: seq<Bytes>)
    requires |engines| == 2
    ensures Smooth(engines, Starts, input) <==>
      SmoothAt(engines[0], Unsniffed, input) && SmoothAt(engines[1], Masked([]), Composed(engines, Starts, input, 1))
  {
    hide SmoothAt;
    assert Composed(engines, Starts, input, 0) == input;
  }

  lemma MembersFlush(detect: Bytes -> string, banned: set<string>, phrases: seq<Bytes>, maxLen: nat, m: Member)
    ensures FlushOk(SniffEngine(detect, banned), m) && FlushOk(MaskEngine(phrases, maxLen), m)
  {
  }

  /** What the masker, flushed, makes of its stage is that stage masked. */
  lemma LastStage(phrases: seq<Bytes>, maxLen: nat, given: seq<Bytes>)
    requires Fit(phrases, maxLen)
    ensures var e := MaskEngine(phrases, maxLen);
      var out := Concat(Outs(e, Masked([]), given) + FlushOut(e, StateAfter(e, Masked([]), given)));
      StarredFrom(phrases, Concat(given), out) && NoSurvivors(phrases, out)
  {
    hide Solid, Outs, Runs, StateAfter, StarredFrom, NoSurvivors, MaskFrom, Flow, Concat;
    var e := MaskEngine(phrases, maxLen);
    MaskRun(phrases, maxLen, given);
    var s := StateAfter(e, Masked([]), given);
    FlowEnd(phrases, maxLen, Concat(given), Concat(Outs(e, Masked([]), given)), s.pending);
    ConcatAppend(Outs(e, Masked([]), given), FlushOut(e, s));
  }

  /** The composition runs smoothly unless a long stream's type is banned, and then its output is the masked stream or nothing. */
  lemma SniffThenMask(detect: Bytes -> string, banned: set<string>, phrases: seq<Bytes>, maxLen: nat, input: seq<Bytes>)
    requires Fit(phrases, maxLen)
    ensures var es, t := Pair(detect, banned, phrases, maxLen), Concat(input);
      && (Smooth(es, Starts, input) <==> MayPass(detect, banned, t))
      && (Smooth(es, Starts, input) ==>
            var shown, out := if BannedType(detect, banned, t) then [] else t, Concat(Composed(es, Starts, input, 2));
            StarredFrom(phrases, shown, out) && NoSurvivors(phrases, out))
  {
    hide Outs, FlushOut, Runs, StateAfter, StarredFrom, NoSurvivors, Concat, Smooth, MayPass, BannedType;
    var es := Pair(detect, banned, phrases, maxLen);
    SmoothIff(detect, banned, phrases, maxLen, input);
    SniffRun(detect, banned, input);
    LastStage(phrases, maxLen, Composed(es, Starts, input, 1));
    if Runs(es[0], Unsniffed, input) {
      SecondStage(detect, banned, es, Starts, input);
    }
  }

  lemma {:induction false} SolidsSpell(chunks: seq<Bytes>)
    ensures Concat(Solids(chunks)) == Concat(chunks)
  {
    hide Solid;
    if chunks != [] {
      var front, c := chunks[..|chunks| - 1], chunks[|chunks| - 1];
      assert chunks == front + [c];
      SolidsSpell(front);
      ConcatSnoc(front, c);
      ConcatAppend(Solids(front), Solid(c));
    }
  }

  /** The masker never stands in the way, so a stream that did not go through was refused by the sniffer. */
  lemma OnlySnifferRefuses(detect: Bytes -> string, banned: set<string>, phrases: seq<Bytes>, maxLen: nat, input: seq<Bytes>,
                           end: Ending, out: Bytes, outcome: Outcome)
    requires Fit(phrases, maxLen) && outcome != Ok
    requires Ended(Pair(detect, banned, phrases, maxLen), Starts, input, end, out, outcome)
    ensures end.why.Refusal? && end.why.at == 0 && end.why.flushed == 0
  {
    hide Consequence, AllLinked, Concat, Fit, MaskFrom, Leaving, StageAt, SniffProcess;
    var es, stages, why := Pair(detect, banned, phrases, maxLen), end.stages, end.why;
    if !(why.Refusal? && why.at == 0) {
      MaskAnswers(phrases, maxLen, stages[1], if why.Refusal? then why.rest else []);
    }
  }

  /** After any chunks the masker lets the next one through and can be flushed. */
  lemma MaskAnswers(phrases: seq<Bytes>, maxLen: nat, given: seq<Bytes>, c: Bytes)
    requires Fit(phrases, maxLen)
    ensures var e := MaskEngine(phrases, maxLen); var s := StateAfter(e, Masked([]), given);
      e.process(s, c).Passed? && FlushOk(e, s)
  {
    hide StateAfter, Flow, Concat, MaskFrom, Leaving, Runs, Outs;
    MaskRun(phrases, maxLen, given);
  }

  /** What the sniffer held when it refused had not reached the masker: nothing comes out. */
  lemma RefusedWhole(detect: Bytes -> string, banned: set<string>, phrases: seq<Bytes>, maxLen: nat, stages: seq<seq<Bytes>>,
                     rest: Bytes, last: Bytes, outcome: Outcome)
    requires Fit(phrases, maxLen) && |stages| == 3
    requires var es := Pair(detect, banned, phrases, maxLen);
      AllLinked(es, Starts, stages, 0, 0, rest) && Consequence(es, Starts, stages, 0, rest, last, outcome)
    ensures outcome == Stopped && last == [] && stages[2] == []
  {
    hide Solid, AllLinked, Composed, Smooth, MaskFrom;
    var es := Pair(detect, banned, phrases, maxLen);
    NothingSent(detect, banned, phrases, maxLen, stages, rest);
    var r := Answer(es, Starts, stages, 0, rest);
    var states := Current(es, Starts, stages)[0 := r.state];
    assert states[1] == Masked([]);
    MaskNothing(phrases);
    assert PassDown(es, states, [], 1) == Drained(states, []) by {
      assert states[1 := Masked([])] == states;
      assert PassOn(es, states, [], 1) == PassOn(es, states, [], 2) == Passed(states, []);
    }
    assert FlushDown(es, states, [], 1) == Drained(states, []) by {
      assert states[1 := Masked([])] == states;
    }
  }

  lemma NothingSent(detect: Bytes -> string, banned: set<string>, phrases: seq<Bytes>, maxLen: nat, stages: seq<seq<Bytes>>, rest: Bytes)
    requires Fit(phrases, maxLen) && |stages| == 3
    requires var es := Pair(detect, banned, phrases, maxLen);
      AllLinked(es, Starts, stages, 0, 0, rest) && !Answer(es, Starts, stages, 0, rest).Passed?
    ensures stages[1] == [] && stages[2] == []
    ensures var r := Answer(Pair(detect, banned, phrases, maxLen), Starts, stages, 0, rest); r.Blocked? && r.out == []
  {
    hide Solid;
    var es := Pair(detect, banned, phrases, maxLen);
    assert LinkedAt(es, Starts, stages, 0, 0, 0, rest) && LinkedAt(es, Starts, stages, 0, 1, 0, rest);
    SniffRun(detect, banned, stages[0]);
    EmptyConcat(Outs(es[0], Unsniffed, stages[0]));
  }

  lemma EmptyConcat(chunks: seq<Bytes>)
    requires [] !in chunks && Concat(chunks) == []
    ensures chunks == []
  {
  }

  /**
   ContentFilter with a sniffer and masked phrases, run on a stream in any chunks. Of a banned type nothing comes out,
   and the stream is stopped if it is long enough for that to show before its end; any other stream comes out masked.
   */
  method FilterContent(detect: Bytes -> string, banned: set<string>, phrases: seq<Bytes>, chunks: seq<Bytes>)
    returns (out: Bytes, outcome: Outcome)
    ensures var t := Concat(chunks);
      && outcome == (if BannedType(detect, banned, t) && |t| >= SNIFF then Stopped else Ok)
      && (BannedType(detect, banned, t) ==> out == [])
      && (!BannedType(detect, banned, t) ==> StarredFrom(phrases, t, out) && NoSurvivors(phrases, out))
  {
    hide StarredFrom, NoSurvivors, Smooth, Composed, Inert, NonEmpty, Fit, Explains, Consequence;
    var kept, maxLen := NewMaskingFilter(phrases);
    MembersInert(detect, banned, kept, maxLen);
    SniffThenMask(detect, banned, kept, maxLen, Solids(chunks));
    SolidsSpell(chunks);
    ghost var t, end := Concat(chunks), Ending([], NoTrouble, []);
    out, outcome, end := RunChain(Pair(detect, banned, kept, maxLen), Starts, chunks);
    if outcome == Ok {
      ghost var shown := if BannedType(detect, banned, t) then [] else t;
      NonEmptyMasks(phrases, shown, out);
      StarredShape(phrases, shown, out);
    } else {
      OnlySnifferRefuses(detect, banned, kept, maxLen, Solids(chunks), end, out, outcome);
      assert AllLinked(Pair(detect, banned, kept, maxLen), Starts, end.stages, 0, 0, end.why.rest) by {
        ExplainedLinks(Pair(detect, banned, kept, maxLen), end.stages, end.why);
      }
      RefusedWhole(detect, banned, kept, maxLen, end.stages, end.why.rest, end.last, outcome);
    }
  }

  lemma ExplainedLinks(engines: seq<Engine<Member>>, stages: seq<seq<Bytes>>, why: Trouble)
    requires |engines| == 2 && |stages| == 3 && Explains(engines, Starts, stages, why) && why.Refusal?
    ensures AllLinked(engines, Starts, stages, why.flushed, why.at, why.rest)
  {
  }

  // ---------------------------------------------------------------- behind a reader

  /** A chain's member as the engine of a reader. */
  function Driven<S>(e: Engine<S>): InspectReaders.Engine<S>
  {
    InspectReaders.Engine(
      (s: S, c: Bytes) =>
        match e.process(s, c)
        case Failed => InspectReaders.Failed
        case Passed(s', o) => InspectReaders.Step(s', InspectReaders.Own(o), false)
        case Blocked(s', o) => InspectReaders.Step(s', InspectReaders.Own(o), true),
      match e.flush
      case None => None
      case Some(f) => Some((s: S) => match f(s) case FlushFailed => None case Flushed(_, o) => Some(o)))
  }

  /** The sniffer has nothing left to flush once it blocks, so a reader in front of it never delivers anything after a block. */
  lemma SnifferIsSilent(detect: Bytes -> string, banned: set<string>, src: seq<InspectReaders.Chunk>)
    ensures var e := Driven(SniffEngine(detect, banned));
      InspectReaders.Served(e, Unsniffed, src) == InspectReaders.Due(e, Unsniffed, src)
  {
    InspectReaders.SilentEngineIsDue(Driven(SniffEngine(detect, banned)), Unsniffed, src);
  }
}
