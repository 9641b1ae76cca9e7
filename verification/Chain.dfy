/**
 The filter chain. Members are arbitrary deterministic filters: a step function on a state and a
 chunk, and for some a flush. What the chain promises is stated by the list of chunks each member
 was given: stage k + 1 is given exactly what stage k put out, in order, flush included.
 */
module Chains {

  import opened Options
  import opened Bytes

  datatype Step<S> = Passed(state: S, out: Bytes) | Blocked(state: S, out: Bytes) | Failed

  datatype Flushed<S> = Flushed(state: S, out: Bytes) | FlushFailed

  datatype Engine<!S> = Engine(process: (S, Bytes) -> Step<S>, flush: Option<S -> Flushed<S>>)

  // ---------------------------------------------------------------- one member on a list of chunks

  /** The member's state after a list of chunks (a chunk that blocks or fails leaves it where it was). */
  ghost function StateAfter<S(!new)>(e: Engine<S>, s: S, chunks: seq<Bytes>): S
  {
    if chunks == [] then s
    else
      var before := StateAfter(e, s, chunks[..|chunks| - 1]);
      var r := e.process(before, chunks[|chunks| - 1]);
      if r.Passed? then r.state else before
  }

  /** The non-empty chunks the member put out. */
  ghost function Outs<S(!new)>(e: Engine<S>, s: S, chunks: seq<Bytes>): (r: seq<Bytes>)
    ensures [] !in r
  {
    if chunks == [] then []
    else
      var front := chunks[..|chunks| - 1];
      var r := e.process(StateAfter(e, s, front), chunks[|chunks| - 1]);
      Outs(e, s, front) + if r.Passed? then Solid(r.out) else []
  }

  /** No chunk of the list makes the member block or fail. */
  ghost predicate Runs<S(!new)>(e: Engine<S>, s: S, chunks: seq<Bytes>)
  {
    forall i | 0 <= i < |chunks| :: e.process(StateAfter(e, s, chunks[..i]), chunks[i]).Passed?
  }

  /** As long as a member has let everything through, an empty chunk neither changes it nor makes it put anything out. */
  ghost predicate Inert<S(!new)>(e: Engine<S>, start: S)
  {
    forall chunks: seq<Bytes> | Runs(e, start, chunks) ::
      e.process(StateAfter(e, start, chunks), []) == Passed(StateAfter(e, start, chunks), [])
  }

  /** A chunk as a list: nothing if it is empty. */
  function Solid(c: Bytes): (r: seq<Bytes>)
    ensures Concat(r) == c && [] !in r
  {
    if c == [] then [] else
      assert Concat([c]) == c + Concat([]);
      [c]
  }

  lemma RunsSnoc<S(!new)>(e: Engine<S>, s: S, chunks: seq<Bytes>, c: Bytes)
    requires Runs(e, s, chunks) && e.process(StateAfter(e, s, chunks), c).Passed?
    ensures Runs(e, s, chunks + [c])
    ensures StateAfter(e, s, chunks + [c]) == e.process(StateAfter(e, s, chunks), c).state
    ensures Outs(e, s, chunks + [c]) == Outs(e, s, chunks) + Solid(e.process(StateAfter(e, s, chunks), c).out)
  {
    var all := chunks + [c];
    assert forall i | 0 <= i < |chunks| :: all[..i] == chunks[..i];
  }

  /** What a member's flush adds to the next stage. */
  ghost function FlushOut<S(!new)>(e: Engine<S>, s: S): (r: seq<Bytes>)
    ensures [] !in r
  {
    if e.flush.Some? && e.flush.value(s).Flushed? then Solid(e.flush.value(s).out) else []
  }

  /** The member has no flush, or its flush succeeds. */
  predicate FlushOk<S(!new)>(e: Engine<S>, s: S)
  {
    e.flush.Some? ==> e.flush.value(s).Flushed?
  }

  // ---------------------------------------------------------------- the stages of a chain

  /** Stage k + 1 has been given exactly what member k put out, and its flush too once it was flushed. */
  ghost predicate Linked<S(!new)>(e: Engine<S>, start: S, given: seq<Bytes>, next: seq<Bytes>, flushed: bool)
  {
    && Runs(e, start, given) && (flushed ==> FlushOk(e, StateAfter(e, start, given)))
    && next == Outs(e, start, given) + if flushed then FlushOut(e, StateAfter(e, start, given)) else []
  }

  /** The chunks member k is given when each member in turn is run on all that the one before puts out, flush included. */
  ghost function Composed<S(!new)>(engines: seq<Engine<S>>, starts: seq<S>, input: seq<Bytes>, k: nat): seq<Bytes>
    requires |starts| == |engines| && k <= |engines|
  {
    if k == 0 then input
    else
      var given := Composed(engines, starts, input, k - 1);
      Outs(engines[k - 1], starts[k - 1], given) + FlushOut(engines[k - 1], StateAfter(engines[k - 1], starts[k - 1], given))
  }

  /** In that composition no member blocks or fails, and no flush fails. */
  ghost predicate Smooth<S(!new)>(engines: seq<Engine<S>>, starts: seq<S>, input: seq<Bytes>)
    requires |starts| == |engines|
  {
    forall k | 0 <= k < |engines| :: SmoothAt(engines[k], starts[k], Composed(engines, starts, input, k))
  }

  ghost predicate SmoothAt<S(!new)>(e: Engine<S>, start: S, given: seq<Bytes>)
  {
    Runs(e, start, given) && FlushOk(e, StateAfter(e, start, given))
  }

  /** Stages that are all linked, flushes included. */
  ghost predicate Composition<S(!new)>(engines: seq<Engine<S>>, starts: seq<S>, stages: seq<seq<Bytes>>)
  {
    && |starts| == |engines| && |stages| == |engines| + 1
    && forall k | 0 <= k < |engines| :: Linked(engines[k], starts[k], stages[k], stages[k + 1], true)
  }

  /** Linked stages are the composition of the members on the first of them, and it runs smoothly. */
  lemma {:induction false} CompositionIs<S(!new)>(engines: seq<Engine<S>>, starts: seq<S>, stages: seq<seq<Bytes>>, k: nat)
    requires Composition(engines, starts, stages) && k < |stages|
    ensures stages[k] == Composed(engines, starts, stages[0], k)
    ensures forall j | 0 <= j < k :: SmoothAt(engines[j], starts[j], Composed(engines, starts, stages[0], j))
  {
    hide Runs, Outs, FlushOut, FlushOk, StateAfter;
    if k > 0 {
      CompositionIs(engines, starts, stages, k - 1);
      assert Linked(engines[k - 1], starts[k - 1], stages[k - 1], stages[k - 1 + 1], true);
    }
  }

  datatype Outcome = Ok | Stopped | Error

  /**
   A chunk c is on its way into member j: every stage has what the one before put out, except that
   stage j still lacks c. Members before flushed have been flushed; the others are in step with their stage.
   */
  ghost predicate Passing<S(!new)>(engines: seq<Engine<S>>, starts: seq<S>, states: seq<S>, stages: seq<seq<Bytes>>,
                                   flushed: nat, j: nat, c: Bytes)
  {
    && |starts| == |states| == |engines| && |stages| == |engines| + 1 && j <= |engines|
    && (forall k | 0 <= k < |engines| :: Inert(engines[k], starts[k]))
    && (forall k | 0 <= k < |engines| :: LinkedAt(engines, starts, stages, flushed, k, j, c))
    && (forall k | flushed <= k < |engines| :: states[k] == StateAfter(engines[k], starts[k], stages[k]))
  }

  ghost predicate LinkedAt<S(!new)>(engines: seq<Engine<S>>, starts: seq<S>, stages: seq<seq<Bytes>>, flushed: nat, k: nat, j: nat, c: Bytes)
    requires |starts| == |engines| && |stages| == |engines| + 1 && k < |engines|
  {
    Linked(engines[k], starts[k], stages[k], stages[k + 1] + (if k + 1 == j then Solid(c) else []), k < flushed)
  }

  lemma LinkExtends<S(!new)>(e: Engine<S>, start: S, given: seq<Bytes>, next: seq<Bytes>, c: Bytes)
    requires Inert(e, start) && Linked(e, start, given, next, false) && e.process(StateAfter(e, start, given), c).Passed?
    ensures var r := e.process(StateAfter(e, start, given), c);
      && Linked(e, start, given + Solid(c), next + Solid(r.out), false)
      && StateAfter(e, start, given + Solid(c)) == r.state
  {
    hide Runs, Outs, StateAfter, FlushOut;
    var r := e.process(StateAfter(e, start, given), c);
    if c == [] {
      assert given + Solid(c) == given && next + Solid(r.out) == next;
    } else {
      RunsSnoc(e, start, given, c);
    }
  }

  lemma PassStep<S(!new)>(engines: seq<Engine<S>>, starts: seq<S>, states: seq<S>, stages: seq<seq<Bytes>>, flushed: nat, j: nat, c: Bytes)
    requires Passing(engines, starts, states, stages, flushed, j, c) && flushed <= j < |engines|
    requires engines[j].process(states[j], c).Passed?
    ensures var r := engines[j].process(states[j], c);
      Passing(engines, starts, states[j := r.state], stages[j := stages[j] + Solid(c)], flushed, j + 1, r.out)
  {
    hide Linked, Inert, StateAfter, Solid;
    var r := engines[j].process(states[j], c);
    var stages', j' := stages[j := stages[j] + Solid(c)], j + 1;
    assert LinkedAt(engines, starts, stages, flushed, j, j, c);
    assert stages[j + 1] + [] == stages[j + 1];
    LinkExtends(engines[j], starts[j], stages[j], stages[j + 1], c);
    forall k | 0 <= k < |engines| ensures LinkedAt(engines, starts, stages', flushed, k, j', r.out) {
      assert LinkedAt(engines, starts, stages, flushed, k, j, c);
      if k + 1 == j {
        assert stages'[k + 1] + [] == stages[k + 1] + Solid(c);
      }
    }
  }

  /** A chunk from outside can be on its way into the first member at any time. */
  lemma PassEnter<S(!new)>(engines: seq<Engine<S>>, starts: seq<S>, states: seq<S>, stages: seq<seq<Bytes>>, flushed: nat, c: Bytes)
    requires Passing(engines, starts, states, stages, flushed, 0, [])
    ensures Passing(engines, starts, states, stages, flushed, 0, c)
  {
    forall k | 0 <= k < |engines| ensures LinkedAt(engines, starts, stages, flushed, k, 0, c) {
      assert LinkedAt(engines, starts, stages, flushed, k, 0, []);
    }
  }

  lemma PassEnd<S(!new)>(engines: seq<Engine<S>>, starts: seq<S>, states: seq<S>, stages: seq<seq<Bytes>>, flushed: nat, c: Bytes)
    requires Passing(engines, starts, states, stages, flushed, |engines|, c)
    ensures Passing(engines, starts, states, stages[|engines| := stages[|engines|] + Solid(c)], flushed, 0, [])
  {
    hide Linked, Inert, StateAfter, Solid;
    SolidNone();
    var n := |engines|;
    var stages' := stages[n := stages[n] + Solid(c)];
    forall k | 0 <= k < n ensures LinkedAt(engines, starts, stages', flushed, k, 0, []) {
      assert LinkedAt(engines, starts, stages, flushed, k, n, c);
      assert stages'[k + 1] + [] == stages'[k + 1];
      assert stages[k + 1] + [] == stages[k + 1];
    }
  }

  /** Nothing on its way: it does not matter where. */
  lemma PassNothing<S(!new)>(engines: seq<Engine<S>>, starts: seq<S>, states: seq<S>, stages: seq<seq<Bytes>>, flushed: nat, i: nat, j: nat)
    requires Passing(engines, starts, states, stages, flushed, i, []) && j <= |engines|
    ensures Passing(engines, starts, states, stages, flushed, j, [])
  {
    forall k | 0 <= k < |engines| ensures LinkedAt(engines, starts, stages, flushed, k, j, []) {
      assert LinkedAt(engines, starts, stages, flushed, k, i, []);
    }
  }

  /** Flushing member i sends its flush output on its way into member i + 1. */
  lemma FlushStep<S(!new)>(engines: seq<Engine<S>>, starts: seq<S>, states: seq<S>, stages: seq<seq<Bytes>>, i: nat, states': seq<S>)
    requires Passing(engines, starts, states, stages, i, 0, []) && i < |engines| && FlushOk(engines[i], states[i])
    requires |states'| == |states| && forall k | i < k < |states| :: states'[k] == states[k]
    ensures var f := FlushOut(engines[i], states[i]);
      Passing(engines, starts, states', stages, i + 1, i + 1, if f == [] then [] else f[0])
  {
    hide Linked, Inert, StateAfter, FlushOut;
    var f := FlushOut(engines[i], states[i]);
    var c := if f == [] then [] else f[0];
    FlushSolid(engines[i], states[i]);
    var i' := i + 1;
    forall k | 0 <= k < |engines|
      ensures LinkedAt(engines, starts, stages, i', k, i', c)
    {
      assert LinkedAt(engines, starts, stages, i, k, 0, []);
      assert stages[k + 1] + [] == stages[k + 1];
      if k == i {
        LinkFlushed(engines[i], starts[i], stages[i], stages[i + 1]);
      }
    }
  }

  lemma FlushSolid<S(!new)>(e: Engine<S>, s: S)
    ensures var f := FlushOut(e, s); Solid(if f == [] then [] else f[0]) == f
  {
  }

  lemma LinkFlushed<S(!new)>(e: Engine<S>, start: S, given: seq<Bytes>, next: seq<Bytes>)
    requires Linked(e, start, given, next, false) && FlushOk(e, StateAfter(e, start, given))
    ensures Linked(e, start, given, next + FlushOut(e, StateAfter(e, start, given)), true)
  {
  }

  // ---------------------------------------------------------------- when a run does not go through

  /** Every stage has what the one before put out, except that stage j still lacks c; the first few members are flushed. */
  ghost predicate AllLinked<S(!new)>(engines: seq<Engine<S>>, starts: seq<S>, stages: seq<seq<Bytes>>, flushed: nat, j: nat, c: Bytes)
  {
    && |starts| == |engines| && |stages| == |engines| + 1
    && (forall k | 0 <= k < |engines| :: Inert(engines[k], starts[k]))
    && (forall k | 0 <= k < |engines| :: LinkedAt(engines, starts, stages, flushed, k, j, c))
  }

  /** What stopped a run: member at would not let rest through, or its flush failed. */
  datatype Trouble = NoTrouble | Refusal(flushed: nat, at: nat, rest: Bytes) | NoFlush(at: nat)

  /** The member in trouble, in the state its stage has brought it to, answers as the trouble says. */
  ghost predicate Explains<S(!new)>(engines: seq<Engine<S>>, starts: seq<S>, stages: seq<seq<Bytes>>, why: Trouble)
  {
    match why
    case NoTrouble => false
    case Refusal(flushed, at, rest) =>
      && AllLinked(engines, starts, stages, flushed, at, rest) && flushed <= at < |engines|
      && !Answer(engines, starts, stages, at, rest).Passed?
    case NoFlush(at) =>
      && AllLinked(engines, starts, stages, at, 0, []) && at < |engines|
      && !FlushOk(engines[at], StateAfter(engines[at], starts[at], stages[at]))
  }

  /** What member k answers to c after the chunks of its stage. */
  ghost function Answer<S(!new)>(engines: seq<Engine<S>>, starts: seq<S>, stages: seq<seq<Bytes>>, k: nat, c: Bytes): Step<S>
    requires |starts| == |engines| && |stages| == |engines| + 1 && k < |engines|
  {
    engines[k].process(StateAfter(engines[k], starts[k], stages[k]), c)
  }

  /** The members' states after the chunks of their stages. */
  ghost function Current<S(!new)>(engines: seq<Engine<S>>, starts: seq<S>, stages: seq<seq<Bytes>>): (r: seq<S>)
    requires |starts| == |engines| && |stages| == |engines| + 1
    ensures |r| == |engines| && forall k | 0 <= k < |engines| :: r[k] == StateAfter(engines[k], starts[k], stages[k])
  {
    seq(|engines|, k requires 0 <= k < |engines| => StateAfter(engines[k], starts[k], stages[k]))
  }

  lemma {:induction false} StateOfPrefix<S(!new)>(e: Engine<S>, s: S, a: seq<Bytes>, b: seq<Bytes>)
    requires a <= b
    ensures Outs(e, s, a) <= Outs(e, s, b)
  {
    if a != b {
      var front := b[..|b| - 1];
      StateOfPrefix(e, s, a, front);
    }
  }

  /** Stage k, with the chunk on its way into it. */
  ghost function StageAt(stages: seq<seq<Bytes>>, k: nat, j: nat, c: Bytes): seq<Bytes>
    requires k < |stages|
  {
    stages[k] + if k == j then Solid(c) else []
  }

  /** Whatever has reached stage k so far is the beginning of what the composition gives it; all of it, up to the first unflushed member. */
  lemma {:induction false} StageBegins<S(!new)>(
    engines: seq<Engine<S>>, starts: seq<S>, input: seq<Bytes>, stages: seq<seq<Bytes>>, flushed: nat, j: nat, c: Bytes, k: nat)
    requires AllLinked(engines, starts, stages, flushed, j, c) && (c == [] || flushed <= j) && k <= |engines|
    requires StageAt(stages, 0, j, c) <= input && (flushed > 0 ==> StageAt(stages, 0, j, c) == input)
    ensures StageAt(stages, k, j, c) <= Composed(engines, starts, input, k)
    ensures k <= flushed && StageAt(stages, 0, j, c) == input ==> StageAt(stages, k, j, c) == Composed(engines, starts, input, k)
  {
    hide Runs, Outs, FlushOut, FlushOk, StateAfter, Inert, Solid;
    SolidNone();
    if k > 0 {
      var e, start, given := engines[k - 1], starts[k - 1], stages[k - 1];
      var whole := Composed(engines, starts, input, k - 1);
      StageBegins(engines, starts, input, stages, flushed, j, c, k - 1);
      assert LinkedAt(engines, starts, stages, flushed, k - 1, j, c);
      if k - 1 < flushed {
        assert StageAt(stages, k - 1, j, c) == given;
        assert StageAt(stages, k, j, c) == Outs(e, start, given) + FlushOut(e, StateAfter(e, start, given));
      } else {
        assert given <= StageAt(stages, k - 1, j, c) <= whole;
        StateOfPrefix(e, start, given, whole);
        assert StageAt(stages, k, j, c) == Outs(e, start, given);
      }
    }
  }

  lemma SolidNone()
    ensures Solid([]) == []
  {
  }

  /** In a composition that runs smoothly nobody gets into trouble. */
  lemma SmoothMeansNoTrouble<S(!new)>(
    engines: seq<Engine<S>>, starts: seq<S>, input: seq<Bytes>, stages: seq<seq<Bytes>>, why: Trouble)
    requires |starts| == |engines| && |stages| == |engines| + 1 && Smooth(engines, starts, input)
    requires why.Refusal? ==>
      var begun := StageAt(stages, 0, why.at, why.rest); begun <= input && (why.flushed > 0 ==> begun == input)
    requires why.NoFlush? ==> stages[0] == input
    ensures !Explains(engines, starts, stages, why)
  {
    hide Composed, LinkedAt, Inert, FlushOk, Runs, StateAfter;
    if Explains(engines, starts, stages, why) {
      var k := why.at;
      assert SmoothAt(engines[k], starts[k], Composed(engines, starts, input, k));
      if why.Refusal? {
        StageBegins(engines, starts, input, stages, why.flushed, k, why.rest, k);
        assert LinkedAt(engines, starts, stages, why.flushed, k, k, why.rest);
        LinkedRuns(engines, starts, stages, why.flushed, k, why.rest);
        NotRefused(engines[k], starts[k], stages[k], why.rest, Composed(engines, starts, input, k));
      } else {
        SolidNone();
        assert StageAt(stages, 0, 0, []) == stages[0] && StageAt(stages, k, 0, []) == stages[k];
        StageBegins(engines, starts, input, stages, k, 0, [], k);
      }
    }
  }

  lemma LinkedRuns<S(!new)>(engines: seq<Engine<S>>, starts: seq<S>, stages: seq<seq<Bytes>>, flushed: nat, k: nat, c: Bytes)
    requires AllLinked(engines, starts, stages, flushed, k, c) && k < |engines|
    ensures Runs(engines[k], starts[k], stages[k])
  {
    assert LinkedAt(engines, starts, stages, flushed, k, k, c);
  }

  lemma NotRefused<S(!new)>(e: Engine<S>, start: S, given: seq<Bytes>, c: Bytes, whole: seq<Bytes>)
    requires Runs(e, start, whole) && given + Solid(c) <= whole && Inert(e, start) && Runs(e, start, given)
    ensures e.process(StateAfter(e, start, given), c).Passed?
  {
    if c != [] {
      assert whole[..|given|] == given && whole[|given|] == (given + [c])[|given|];
    }
  }

  // ---------------------------------------------------------------- after a block

  datatype Drained<S> = Drained(states: seq<S>, out: Bytes) | DrainFailed

  /** The chunk through the members from k on, up to and including the first that blocks. */
  function PassOn<S(!new)>(engines: seq<Engine<S>>, states: seq<S>, out: Bytes, k: nat): (r: Step<seq<S>>)
    requires |states| == |engines| && k <= |engines|
    ensures !r.Failed? ==> |r.state| == |engines|
    decreases |engines| - k
  {
    if k == |engines| then Passed(states, out)
    else
      match engines[k].process(states[k], out)
      case Failed => Failed
      case Blocked(state, next) => Blocked(states[k := state], next)
      case Passed(state, next) => PassOn(engines, states[k := state], next, k + 1)
  }

  function PassDown<S(!new)>(engines: seq<Engine<S>>, states: seq<S>, out: Bytes, k: nat): (r: Drained<S>)
    requires |states| == |engines| && k <= |engines|
    ensures r.Drained? ==> |r.states| == |engines|
  {
    var r := PassOn(engines, states, out, k);
    if r.Failed? then DrainFailed else Drained(r.state, r.out)
  }

  function FlushDown<S(!new)>(engines: seq<Engine<S>>, states: seq<S>, out: Bytes, k: nat): (r: Drained<S>)
    requires |states| == |engines| && k <= |engines|
    ensures r.Drained? ==> |r.states| == |engines|
    decreases |engines| - k
  {
    if k == |engines| then Drained(states, out)
    else if engines[k].flush.None? then FlushDown(engines, states, out, k + 1)
    else
      match engines[k].flush.value(states[k])
      case FlushFailed => DrainFailed
      case Flushed(state, tail) => FlushDown(engines, states[k := state], out + tail, k + 1)
  }

  function Drain<S(!new)>(engines: seq<Engine<S>>, states: seq<S>, chunk: Bytes, from: nat): (r: Drained<S>)
    requires |states| == |engines| && from <= |engines|
    ensures r.Drained? ==> |r.states| == |engines|
  {
    var passed := PassDown(engines, states, chunk, from);
    if passed.Drained? then FlushDown(engines, passed.states, passed.out, from) else DrainFailed
  }

  /** A member behind a block that blocks too ends the passing: those behind it are only flushed, as they stand. */
  lemma BlockEndsPassing<S(!new)>(engines: seq<Engine<S>>, states: seq<S>, out: Bytes, k: nat)
    requires |states| == |engines| && k < |engines| && engines[k].process(states[k], out).Blocked? && Drain(engines, states, out, k).Drained?
    ensures var r := engines[k].process(states[k], out);
      Drain(engines, states, out, k).out == r.out + Concat(Tails(engines, states[k := r.state], k))
  {
    hide Tails;
    var r := engines[k].process(states[k], out);
    FlushDownIsTails(engines, states[k := r.state], r.out, k);
  }

  /** The whole chain as one filter: a chunk on its way into member i. */
  function ProcessAll<S(!new)>(engines: seq<Engine<S>>, states: seq<S>, c: Bytes, i: nat): (r: Step<seq<S>>)
    requires |states| == |engines| && i <= |engines|
    ensures !r.Failed? ==> |r.state| == |engines|
    decreases |engines| - i
  {
    if i == |engines| then Passed(states, c)
    else
      match engines[i].process(states[i], c)
      case Failed => Failed
      case Blocked(state, next) =>
        var d := Drain(engines, states[i := state], next, i + 1);
        if d.Drained? then Blocked(d.states, d.out) else Failed
      case Passed(state, next) =>
        if next == [] then Passed(states[i := state], []) else ProcessAll(engines, states[i := state], next, i + 1)
  }

  /** Member i flushed, and what it had kept through all members behind it. */
  function FlushOne<S(!new)>(engines: seq<Engine<S>>, states: seq<S>, i: nat): (r: Step<seq<S>>)
    requires |states| == |engines| && i < |engines|
    ensures !r.Failed? ==> |r.state| == |engines|
  {
    if engines[i].flush.None? then Passed(states, [])
    else
      match engines[i].flush.value(states[i])
      case FlushFailed => Failed
      case Flushed(state, chunk) =>
        if chunk == [] then Passed(states[i := state], []) else PassOn(engines, states[i := state], chunk, i + 1)
  }

  /** The members from i on flushed, out having been collected; a block on the way ends it with what was let through. */
  function FlushAll<S(!new)>(engines: seq<Engine<S>>, states: seq<S>, out: Bytes, i: nat): Flushed<seq<S>>
    requires |states| == |engines| && i <= |engines|
    decreases |engines| - i
  {
    if i == |engines| then Flushed(states, out)
    else
      match FlushOne(engines, states, i)
      case Failed => FlushFailed
      case Blocked(states', last) => Flushed(states', out + last)
      case Passed(states', last) => FlushAll(engines, states', out + last, i + 1)
  }

  lemma SilentFlush<S(!new)>(engines: seq<Engine<S>>, states: seq<S>, i: nat)
    requires |states| == |engines| && i < |engines| && FlushOne(engines, states, i) == Passed(states, [])
    ensures FlushAll(engines, states, [], i) == FlushAll(engines, states, [], i + 1)
  {
    hide FlushOne;
    var none: Bytes := [];
    assert none + none == none;
  }

  lemma FlushEnd<S(!new)>(engines: seq<Engine<S>>, states: seq<S>)
    requires |states| == |engines|
    ensures FlushAll(engines, states, [], |engines|) == Flushed(states, [])
  {
  }

  /** A chain is itself a filter; its state is the states of its members. */
  function AsOne<S(!new)>(engines: seq<Engine<S>>): Engine<seq<S>>
  {
    Engine(
      (states: seq<S>, c: Bytes) => if |states| == |engines| then ProcessAll(engines, states, c, 0) else Failed,
      Some((states: seq<S>) => if |states| == |engines| then FlushAll(engines, states, [], 0) else FlushFailed))
  }

  /** The tails of the members from k on, in order. */
  ghost function Tails<S(!new)>(engines: seq<Engine<S>>, states: seq<S>, k: nat): seq<Bytes>
    requires |states| == |engines| && k <= |engines|
    decreases |engines| - k
  {
    if k == |engines| then [] else FlushOut(engines[k], states[k]) + Tails(engines, states, k + 1)
  }

  /** Every member behind a block is flushed from its own state, and no tail is lost or reordered. */
  lemma {:induction false} FlushDownIsTails<S(!new)>(engines: seq<Engine<S>>, states: seq<S>, out: Bytes, k: nat)
    requires |states| == |engines| && k <= |engines| && FlushDown(engines, states, out, k).Drained?
    ensures FlushDown(engines, states, out, k).out == out + Concat(Tails(engines, states, k))
    decreases |engines| - k
  {
    if k < |engines| {
      var tail := FlushOut(engines[k], states[k]);
      var after := if engines[k].flush.None? then states else states[k := engines[k].flush.value(states[k]).state];
      if engines[k].flush.None? {
        assert out + Concat(tail) == out;
      }
      FlushDownIsTails(engines, after, out + Concat(tail), k + 1);
      TailsFrame(engines, states, after, k + 1);
      ConcatAppend(tail, Tails(engines, states, k + 1));
      assert out + Concat(tail) + Concat(Tails(engines, states, k + 1))
        == out + (Concat(tail) + Concat(Tails(engines, states, k + 1)));
    }
  }

  lemma {:induction false} TailsFrame<S(!new)>(engines: seq<Engine<S>>, a: seq<S>, b: seq<S>, k: nat)
    requires |a| == |b| == |engines| && k <= |engines| && a[k..] == b[k..]
    ensures Tails(engines, a, k) == Tails(engines, b, k)
    decreases |engines| - k
  {
    if k < |engines| {
      TailsFrame(engines, a, b, k + 1);
    }
  }

  /** After member k refused c: a failure is an error; a block drains the members behind it into what is returned. */
  ghost predicate Consequence<S(!new)>(engines: seq<Engine<S>>, starts: seq<S>, stages: seq<seq<Bytes>>, k: nat, c: Bytes,
                                       out: Bytes, outcome: Outcome)
    requires |starts| == |engines| && |stages| == |engines| + 1 && k < |engines|
  {
    match Answer(engines, starts, stages, k, c)
    case Passed(_, _) => false
    case Failed => outcome == Error
    case Blocked(state, next) =>
      var d := Drain(engines, Current(engines, starts, stages)[k := state], next, k + 1);
      if d.Drained? then outcome == Stopped && out == d.out else outcome == Error
  }

  /** What a refusal during a flush concerns is what the flushed member had kept: all it put out before has gone on. */
  ghost predicate FromFlush<S(!new)>(engines: seq<Engine<S>>, starts: seq<S>, stages: seq<seq<Bytes>>, i: nat)
    requires |starts| == |engines| && |stages| == |engines| + 1 && i < |engines|
  {
    Outs(engines[i], starts[i], stages[i]) <= stages[i + 1]
  }

  lemma BeforeFlush<S(!new)>(engines: seq<Engine<S>>, starts: seq<S>, states: seq<S>, stages: seq<seq<Bytes>>, i: nat)
    requires Passing(engines, starts, states, stages, i, 0, []) && i < |engines|
    ensures FromFlush(engines, starts, stages, i)
  {
    assert LinkedAt(engines, starts, stages, i, i, 0, []);
    assert stages[i + 1] + [] == stages[i + 1];
  }

  class Chain<S(!new)> {
    const engines: seq<Engine<S>>
    var states: seq<S>
    ghost const starts: seq<S>
    ghost var stages: seq<seq<Bytes>>  // stages[k]: the chunks given to member k; the last stage: the chain's own output

    ghost predicate Valid()
      reads this
    {
      Passing(engines, starts, states, stages, 0, 0, [])
    }

    constructor (engines: seq<Engine<S>>, starts: seq<S>)
      requires engines != [] && |starts| == |engines| && forall k | 0 <= k < |engines| :: Inert(engines[k], starts[k])
      ensures Valid() && this.engines == engines && this.starts == starts
      ensures |stages| == |engines| + 1 && stages[0] == [] && stages[|engines|] == []
    {
      this.engines, this.starts, this.states := engines, starts, starts;
      this.stages := seq(|engines| + 1, _ => []);
      new;
      forall k | 0 <= k < |engines| ensures LinkedAt(engines, starts, stages, 0, k, 0, []) {
        assert stages[k] == [] && stages[k + 1] == [];
      }
    }

    /**
     ProcessChunk: every stage gets what the one before puts out for the chunk, unless a member blocks or fails; then
     why says which, and on a block the members behind it are drained.
     */
    method ProcessChunk(chunk: Bytes) returns (out: Bytes, outcome: Outcome, ghost why: Trouble)
      requires Valid() && engines != []
      modifies this
      ensures |stages| == |engines| + 1
      ensures outcome == Ok ==>
        && Valid() && stages[0] == old(stages)[0] + Solid(chunk)
        && stages[|engines|] == old(stages)[|engines|] + Solid(out)
      ensures outcome != Ok ==>
        && why.Refusal? && why.flushed == 0 && Explains(engines, starts, stages, why)
        && StageAt(stages, 0, why.at, why.rest) == old(stages)[0] + Solid(chunk)
        && Consequence(engines, starts, stages, why.at, why.rest, out, outcome)
        && stages[|engines|] == old(stages)[|engines|]
      ensures |states| == |engines|
      ensures match ProcessAll(engines, old(states), chunk, 0)
        case Passed(s, o) => outcome == Ok && states == s && out == o
        case Blocked(s, o) => outcome == Stopped && states == s && out == o
        case Failed => outcome == Error
    {
      hide Linked, LinkedAt, Inert, StateAfter, Drain, PassDown, Tails;
      PassEnter(engines, starts, states, stages, 0, chunk);
      out, why := chunk, NoTrouble;
      var i := 0;
      while i < |engines|
        invariant 0 <= i <= |engines| && Passing(engines, starts, states, stages, 0, i, out)
        invariant stages[0] == old(stages)[0] + (if i == 0 then [] else Solid(chunk))
        invariant stages[|engines|] == old(stages)[|engines|] && (i == 0 ==> out == chunk)
        invariant ProcessAll(engines, old(states), chunk, 0) == ProcessAll(engines, states, out, i)
      {
        var r := engines[i].process(states[i], out);
        if !r.Passed? {
          why := Refusal(0, i, out);
          assert states == Current(engines, starts, stages);
        }
        if r.Failed? {
          return [], Error, why;
        }
        if r.Blocked? {
          states := states[i := r.state];
          out, outcome := RunDownstream(r.out, i + 1);
          return;
        }
        PassStep(engines, starts, states, stages, 0, i, out);
        stages := stages[i := stages[i] + Solid(out)];
        states := states[i := r.state];
        out := r.out;
        i := i + 1;
        if |out| == 0 {
          PassNothing(engines, starts, states, stages, 0, i, 0);
          return [], Ok, NoTrouble;
        }
      }
      PassEnd(engines, starts, states, stages, 0, out);
      stages := stages[|engines| := stages[|engines|] + Solid(out)];
      outcome := Ok;
    }

    /**
     runDownstream: after a block, the later members see what was let through until one blocks too, and
     then all of them are flushed; a tail is appended as it is and passes through nobody.
     */
    method RunDownstream(chunk: Bytes, from: nat) returns (out: Bytes, outcome: Outcome)
      requires |states| == |engines| && from <= |engines|
      modifies this`states
      ensures |states| == |engines|
      ensures outcome == (if Drain(engines, old(states), chunk, from).Drained? then Stopped else Error)
      ensures outcome == Stopped ==> Drained(states, out) == Drain(engines, old(states), chunk, from)
      ensures outcome == Stopped ==>
        var p := PassDown(engines, old(states), chunk, from); p.Drained? && out == p.out + Concat(Tails(engines, p.states, from))
    {
      out := chunk;
      var k := from;
      while k < |engines|
        invariant from <= k <= |engines| && |states| == |engines|
        invariant PassOn(engines, old(states), chunk, from) == PassOn(engines, states, out, k)
      {
        var r := engines[k].process(states[k], out);
        if r.Failed? {
          return [], Error;
        }
        states := states[k := r.state];
        out := r.out;
        if r.Blocked? {
          break;
        }
        k := k + 1;
      }
      ghost var passed := PassDown(engines, old(states), chunk, from);
      assert passed == Drained(states, out);
      k := from;
      while k < |engines|
        invariant from <= k <= |engines| && |states| == |engines|
        invariant Drain(engines, old(states), chunk, from) == FlushDown(engines, states, out, k)
      {
        if engines[k].flush.Some? {
          var f := engines[k].flush.value(states[k]);
          if f.FlushFailed? {
            return [], Error;
          }
          states := states[k := f.state];
          out := out + f.out;
        }
        k := k + 1;
      }
      FlushDownIsTails(engines, passed.states, passed.out, from);
      outcome := Stopped;
    }

    /**
     Flush: each member is flushed after everything retained before it has reached it, and what it
     retained goes through all members behind it. If nobody blocks or fails, the stages are then the
     composition of the members, and what Flush returns completes its last stage.
     */
    method Flush() returns (out: Bytes, outcome: Outcome, ghost why: Trouble)
      requires Valid() && engines != []
      modifies this
      ensures |stages| == |engines| + 1
      ensures outcome == Ok ==>
        && Composition(engines, starts, stages) && stages[0] == old(stages)[0]
        && Concat(stages[|engines|]) == Concat(old(stages)[|engines|]) + out
      ensures outcome != Ok ==> Explains(engines, starts, stages, why) && stages[0] == old(stages)[0]
      ensures why.Refusal? && outcome != Ok ==> 0 < why.flushed <= |engines| && FromFlush(engines, starts, stages, why.flushed - 1)
      ensures outcome == Stopped ==>
        && why.Refusal? && Answer(engines, starts, stages, why.at, why.rest).Blocked?
        && Concat(old(stages)[|engines|]) + out
           == Concat(stages[|engines|]) + Answer(engines, starts, stages, why.at, why.rest).out
      ensures outcome == Error ==> why.NoFlush? || Answer(engines, starts, stages, why.at, why.rest).Failed?
      ensures |old(states)| == |engines| && FlushAll(engines, old(states), [], 0) == if outcome == Error then FlushFailed else Flushed(states, out)
    {
      hide Linked, LinkedAt, Inert, FlushOut, StateAfter, FromFlush, Composition, Answer, Explains, FlushOne;
      out, why := [], NoTrouble;
      var i := 0;
      while i < |engines|
        invariant 0 <= i <= |engines| && Passing(engines, starts, states, stages, i, 0, [])
        invariant stages[0] == old(stages)[0]
        invariant Concat(stages[|engines|]) == Concat(old(stages)[|engines|]) + out
        invariant FlushAll(engines, old(states), [], 0) == FlushAll(engines, states, out, i)
      {
        var chunk;
        chunk, outcome, why := FlushMember(i);
        if outcome == Stopped {
          return out + chunk, Stopped, why;
        } else if outcome == Error {
          return [], Error, why;
        }
        out := out + chunk;
        i := i + 1;
      }
      Closed(engines, starts, states, stages);
      outcome := Ok;
    }

    /** One round of Flush: a member is flushed, and what it kept goes through all members behind it. */
    method FlushMember(i: nat) returns (out: Bytes, outcome: Outcome, ghost why: Trouble)
      requires i < |engines| && Passing(engines, starts, states, stages, i, 0, [])
      modifies this
      ensures |stages| == |engines| + 1 && stages[0] == old(stages)[0]
      ensures outcome == Ok ==>
        && Passing(engines, starts, states, stages, i + 1, 0, [])
        && Concat(stages[|engines|]) == Concat(old(stages)[|engines|]) + out
      ensures outcome != Ok ==>
        && Explains(engines, starts, stages, why) && stages[|engines|] == old(stages)[|engines|]
        && (why.Refusal? ==> why.flushed == i + 1 && FromFlush(engines, starts, stages, i))
      ensures outcome == Stopped ==>
        why.Refusal? && var r := Answer(engines, starts, stages, why.at, why.rest); r.Blocked? && out == r.out
      ensures outcome == Error ==> why.NoFlush? || Answer(engines, starts, stages, why.at, why.rest).Failed?
      ensures FlushOne(engines, old(states), i) ==
        match outcome case Ok => Passed(states, out) case Stopped => Blocked(states, out) case Error => Failed
    {
      hide Linked, LinkedAt, Inert, FlushOut, StateAfter, FromFlush, Answer, PassOn;
      BeforeFlush(engines, starts, states, stages, i);
      FlushValue(engines[i], states[i]);
      var states' := states;
      out, why := [], NoTrouble;
      if engines[i].flush.Some? {
        var f := engines[i].flush.value(states[i]);
        if f.FlushFailed? {
          return [], Error, NoFlush(i);
        }
        states', out := states[i := f.state], f.out;
      }
      FlushStep(engines, starts, states, stages, i, states');
      states := states';
      if |out| == 0 {
        PassNothing(engines, starts, states, stages, i + 1, i + 1, 0);
        outcome := Ok;
      } else {
        out, outcome, why := Downstream(out, i + 1);
      }
    }

    /** The inner loop of Flush: a retained chunk through all members behind the one that kept it. */
    method Downstream(chunk: Bytes, from: nat) returns (out: Bytes, outcome: Outcome, ghost why: Trouble)
      requires Passing(engines, starts, states, stages, from, from, chunk) && 0 < from <= |engines|
      requires FromFlush(engines, starts, stages, from - 1)
      modifies this
      ensures |stages| == |old(stages)| && stages[0] == old(stages)[0]
      ensures outcome == Ok ==>
        && Passing(engines, starts, states, stages, from, 0, [])
        && Concat(stages[|engines|]) == Concat(old(stages)[|engines|]) + out
      ensures outcome != Ok ==>
        && why.Refusal? && why.flushed == from && Explains(engines, starts, stages, why)
        && stages[|engines|] == old(stages)[|engines|] && FromFlush(engines, starts, stages, from - 1)
      ensures outcome == Stopped ==>
        var r := Answer(engines, starts, stages, why.at, why.rest); r.Blocked? && out == r.out
      ensures outcome == Error ==> Answer(engines, starts, stages, why.at, why.rest).Failed?
      ensures PassOn(engines, old(states), chunk, from) ==
        match outcome case Ok => Passed(states, out) case Stopped => Blocked(states, out) case Error => Failed
    {
      hide Linked, LinkedAt, Inert, StateAfter, Outs;
      out, why := chunk, NoTrouble;
      var k := from;
      while k < |engines|
        invariant from <= k <= |engines| && Passing(engines, starts, states, stages, from, k, out)
        invariant stages[0] == old(stages)[0] && stages[|engines|] == old(stages)[|engines|]
        invariant FromFlush(engines, starts, stages, from - 1)
        invariant PassOn(engines, old(states), chunk, from) == PassOn(engines, states, out, k)
      {
        var r := engines[k].process(states[k], out);
        if r.Failed? {
          return [], Error, Refusal(from, k, out);
        }
        if r.Blocked? {
          states := states[k := r.state];
          return r.out, Stopped, Refusal(from, k, out);
        }
        PassStep(engines, starts, states, stages, from, k, out);
        stages := stages[k := stages[k] + Solid(out)];
        states := states[k := r.state];
        out := r.out;
        k := k + 1;
      }
      PassEnd(engines, starts, states, stages, from, out);
      ConcatAppend(stages[|engines|], Solid(out));
      stages := stages[|engines| := stages[|engines|] + Solid(out)];
      outcome := Ok;
    }
  }

  lemma FlushValue<S(!new)>(e: Engine<S>, s: S)
    ensures e.flush.None? ==> FlushOut(e, s) == []
    ensures e.flush.Some? && e.flush.value(s).Flushed? ==>
      var f := FlushOut(e, s); e.flush.value(s).out == if f == [] then [] else f[0]
  {
  }

  lemma Closed<S(!new)>(engines: seq<Engine<S>>, starts: seq<S>, states: seq<S>, stages: seq<seq<Bytes>>)
    requires Passing(engines, starts, states, stages, |engines|, 0, [])
    ensures Composition(engines, starts, stages)
  {
    forall k | 0 <= k < |engines| ensures Linked(engines[k], starts[k], stages[k], stages[k + 1], true) {
      assert LinkedAt(engines, starts, stages, |engines|, k, 0, []);
    }
  }

  /** The chunks of a stream that are not empty. */
  function Solids(chunks: seq<Bytes>): seq<Bytes>
  {
    if chunks == [] then [] else Solids(chunks[..|chunks| - 1]) + Solid(chunks[|chunks| - 1])
  }

  lemma {:induction false} SolidsPrefix(chunks: seq<Bytes>, i: nat)
    requires i < |chunks|
    ensures Solids(chunks[..i + 1]) == Solids(chunks[..i]) + Solid(chunks[i])
    ensures Solids(chunks[..i + 1]) <= Solids(chunks)
    decreases |chunks| - i
  {
    hide Solid;
    assert chunks[..i + 1][..i] == chunks[..i];
    if i + 1 < |chunks| {
      SolidsPrefix(chunks, i + 1);
    } else {
      assert chunks[..i + 1] == chunks;
    }
  }

  /** How a stream that did not go through ended: which member would not go on, and what had come out. */
  datatype Ending = Ending(stages: seq<seq<Bytes>>, why: Trouble, last: Bytes)

  /** The member named would not let through what its stage and the chunk on its way brought it, and the chain did as it must. */
  ghost predicate Ended<S(!new)>(engines: seq<Engine<S>>, starts: seq<S>, input: seq<Bytes>, end: Ending, out: Bytes, outcome: Outcome)
    requires |starts| == |engines|
  {
    && |end.stages| == |engines| + 1 && Explains(engines, starts, end.stages, end.why)
    && (outcome == Stopped ==> out == Concat(end.stages[|engines|]) + end.last)
    && (end.why.Refusal? && end.why.flushed == 0 ==>
          && StageAt(end.stages, 0, end.why.at, end.why.rest) <= input
          && Consequence(engines, starts, end.stages, end.why.at, end.why.rest, end.last, outcome))
    && (end.why.Refusal? && end.why.flushed > 0 ==>
          && end.stages[0] == input && FromFlush(engines, starts, end.stages, end.why.flushed - 1)
          && outcome == (if Answer(engines, starts, end.stages, end.why.at, end.why.rest).Failed? then Error else Stopped)
          && (outcome == Stopped ==> end.last == Answer(engines, starts, end.stages, end.why.at, end.why.rest).out))
    && (end.why.NoFlush? ==> end.stages[0] == input && outcome == Error)
  }

  /**
   A whole stream through a chain: it goes through if and only if no member blocks or fails in the composition
   of the members, and then the output is what the last of them puts out.
   */
  method RunChain<S(!new)>(engines: seq<Engine<S>>, starts: seq<S>, chunks: seq<Bytes>)
    returns (out: Bytes, outcome: Outcome, ghost end: Ending)
    requires engines != [] && |starts| == |engines| && forall k | 0 <= k < |engines| :: Inert(engines[k], starts[k])
    ensures outcome == Ok <==> Smooth(engines, starts, Solids(chunks))
    ensures outcome == Ok ==> out == Concat(Composed(engines, starts, Solids(chunks), |engines|))
    ensures outcome != Ok ==> Ended(engines, starts, Solids(chunks), end, out, outcome)
  {
    hide Passing, Composition, Inert, Smooth, Explains, Composed, Solid, Answer, Consequence, FromFlush;
    var chain := new Chain(engines, starts);
    out := [];
    ghost var why := NoTrouble;
    end := Ending([], NoTrouble, []);
    for i := 0 to |chunks|
      invariant chain.Valid() && chain.engines == engines && chain.starts == starts
      invariant |chain.stages| == |engines| + 1 && chain.stages[0] == Solids(chunks[..i]) && Concat(chain.stages[|engines|]) == out
    {
      var piece;
      ghost var last := chain.stages[|engines|];
      SolidsPrefix(chunks, i);
      piece, outcome, why := chain.ProcessChunk(chunks[i]);
      out := out + piece;
      if outcome != Ok {
        end := Ending(chain.stages, why, piece);
        Troubled(engines, starts, Solids(chunks), chain.stages, why);
        return;
      }
      ConcatAppend(last, Solid(piece));
    }
    assert chunks[..|chunks|] == chunks;
    var rest;
    rest, outcome, why := chain.Flush();
    out := out + rest;
    if outcome != Ok {
      TroubleAt(engines, starts, chain.stages, why);
      end := Ending(chain.stages, why, if outcome == Stopped then Refused(engines, starts, chain.stages, why) else []);
      Troubled(engines, starts, Solids(chunks), chain.stages, why);
    } else {
      WentThrough(engines, starts, chain.stages);
    }
  }

  lemma TroubleAt<S(!new)>(engines: seq<Engine<S>>, starts: seq<S>, stages: seq<seq<Bytes>>, why: Trouble)
    requires Explains(engines, starts, stages, why)
    ensures !why.NoTrouble? && why.at < |engines|
  {
  }

  /** What a member that blocked let out. */
  ghost function Refused<S(!new)>(engines: seq<Engine<S>>, starts: seq<S>, stages: seq<seq<Bytes>>, why: Trouble): Bytes
    requires |starts| == |engines| && |stages| == |engines| + 1
  {
    if why.Refusal? && why.at < |engines| then
      var r := Answer(engines, starts, stages, why.at, why.rest);
      if r.Blocked? then r.out else []
    else []
  }

  lemma Troubled<S(!new)>(engines: seq<Engine<S>>, starts: seq<S>, input: seq<Bytes>, stages: seq<seq<Bytes>>, why: Trouble)
    requires |starts| == |engines| && |stages| == |engines| + 1 && Explains(engines, starts, stages, why)
    requires why.Refusal? && why.flushed == 0 ==> StageAt(stages, 0, why.at, why.rest) <= input
    requires why.Refusal? && why.flushed > 0 ==> stages[0] == input
    requires why.NoFlush? ==> stages[0] == input
    ensures !Smooth(engines, starts, input)
  {
    if why.Refusal? && why.flushed > 0 {
      assert why.at > 0 && stages[0] + [] == stages[0];
    }
    if Smooth(engines, starts, input) {
      SmoothMeansNoTrouble(engines, starts, input, stages, why);
    }
  }

  lemma WentThrough<S(!new)>(engines: seq<Engine<S>>, starts: seq<S>, stages: seq<seq<Bytes>>)
    requires Composition(engines, starts, stages)
    ensures Smooth(engines, starts, stages[0]) && stages[|engines|] == Composed(engines, starts, stages[0], |engines|)
  {
    CompositionIs(engines, starts, stages, |engines|);
  }
}
