/**
 The reader that drives a filter: it pulls chunks from a source through one shared scratch buffer,
 hands them to the engine, and serves the engine's output to reads of any size. The engine may answer
 with a piece of the very buffer it was given, so the buffer must not be refilled too early.
 */
module InspectReaders {

  import opened Options
  import opened Bytes

  /** An engine's output: the first n bytes of the input buffer itself, or bytes of its own. */
  datatype Out = Alias(n: nat) | Own(bytes: Bytes)

  datatype Step<S> = Step(state: S, out: Out, blocked: bool) | Failed

  /** An engine; a flush that fails yields nothing. */
  datatype Engine<!S> = Engine(process: (S, Bytes) -> Step<S>, flush: Option<S -> Option<Bytes>>)

  /** One source read: its bytes, and whether end of file came along with them. */
  datatype Chunk = Chunk(data: Bytes, eof: bool)

  function Value(o: Out, input: Bytes): Bytes
  {
    match o
    case Alias(n) => if n <= |input| then input[..n] else input
    case Own(b) => b
  }

  /** What a reader's caller gets in all: bytes, and whether an error comes after them instead of end of file. */
  datatype Service = Service(bytes: Bytes, failed: bool)

  function Prepend(v: Bytes, r: Service): Service
  {
    Service(v + r.bytes, r.failed)
  }

  const NOTHING := Service([], false)

  function FlushOf<S>(e: Engine<S>, s: S): Service
  {
    if e.flush.None? then NOTHING
    else
      match e.flush.value(s)
      case None => Service([], true)
      case Some(b) => Service(b, false)
  }

  // ---------------------------------------------------------------- what must be delivered

  /** The engine's outputs in order, cut at the first block or failure, otherwise followed by one flush. */
  ghost function Due<S>(e: Engine<S>, s: S, src: seq<Chunk>): Service
  {
    if src == [] then FlushOf(e, s)
    else if src[0].data == [] then Due(e, s, src[1..])
    else
      match e.process(s, src[0].data)
      case Failed => Service([], true)
      case Step(s', o, blocked) => Prepend(Value(o, src[0].data), if blocked then NOTHING else Due(e, s', src[1..]))
  }

  /** What the reader does deliver: a block that comes with end of file and no output still flushes. */
  ghost function Served<S>(e: Engine<S>, s: S, src: seq<Chunk>): Service
  {
    if src == [] then FlushOf(e, s)
    else if src[0].data == [] then Served(e, s, src[1..])
    else
      match e.process(s, src[0].data)
      case Failed => Service([], true)
      case Step(s', o, blocked) =>
        var v := Value(o, src[0].data);
        if !blocked then Prepend(v, Served(e, s', src[1..]))
        else if src[0].eof && v == [] then FlushOf(e, s') else Service(v, false)
  }

  /** The run reaches a chunk that ends the source, blocks, puts out nothing, and leaves a flush that is not silent. */
  ghost predicate FlushesAfterBlock<S>(e: Engine<S>, s: S, src: seq<Chunk>)
  {
    src != [] &&
    if src[0].data == [] then FlushesAfterBlock(e, s, src[1..])
    else
      match e.process(s, src[0].data)
      case Failed => false
      case Step(s', o, blocked) =>
        if blocked then src[0].eof && Value(o, src[0].data) == [] && FlushOf(e, s') != NOTHING
        else FlushesAfterBlock(e, s', src[1..])
  }

  /** The reader delivers what is due exactly when no such chunk is reached. */
  lemma {:induction false} ServedIsDue<S>(e: Engine<S>, s: S, src: seq<Chunk>)
    ensures Served(e, s, src) == Due(e, s, src) <==> !FlushesAfterBlock(e, s, src)
  {
    if src != [] {
      if src[0].data == [] {
        ServedIsDue(e, s, src[1..]);
      } else {
        match e.process(s, src[0].data)
        case Failed =>
        case Step(s', o, blocked) =>
          ServedIsDue(e, s', src[1..]);
          PrependCancel(Value(o, src[0].data), Served(e, s', src[1..]), Due(e, s', src[1..]));
      }
    }
  }

  lemma PrependCancel(v: Bytes, a: Service, b: Service)
    ensures Prepend(v, a) == Prepend(v, b) <==> a == b
  {
    if v + a.bytes == v + b.bytes {
      assert a.bytes == (v + a.bytes)[|v|..] == (v + b.bytes)[|v|..] == b.bytes;
    }
  }

  /** A source that reports end of file without data never gets there. */
  lemma {:induction false} BareEofIsDue<S(!new)>(e: Engine<S>, s: S, src: seq<Chunk>)
    requires forall i | 0 <= i < |src| :: src[i].eof ==> src[i].data == []
    ensures Served(e, s, src) == Due(e, s, src)
  {
    NeverFlushesAfterBlock(e, s, src);
    ServedIsDue(e, s, src);
  }

  lemma {:induction false} NeverFlushesAfterBlock<S(!new)>(e: Engine<S>, s: S, src: seq<Chunk>)
    requires (forall i | 0 <= i < |src| :: src[i].eof ==> src[i].data == []) || SilentAfterBlock(e)
    ensures !FlushesAfterBlock(e, s, src)
  {
    if src != [] {
      if src[0].data == [] {
        NeverFlushesAfterBlock(e, s, src[1..]);
      } else {
        match e.process(s, src[0].data)
        case Failed =>
        case Step(s', o, blocked) => NeverFlushesAfterBlock(e, s', src[1..]);
      }
    }
  }

  /** An engine that has nothing left to flush when it blocks without output. */
  ghost predicate SilentAfterBlock<S(!new)>(e: Engine<S>)
  {
    forall s, data ::
      var r := e.process(s, data);
      r.Step? && r.blocked && Value(r.out, data) == [] ==> FlushOf(e, r.state) == NOTHING
  }

  /** For such an engine the reader always delivers what is due, however the source reports end of file. */
  lemma SilentEngineIsDue<S(!new)>(e: Engine<S>, s: S, src: seq<Chunk>)
    requires SilentAfterBlock(e)
    ensures Served(e, s, src) == Due(e, s, src)
  {
    NeverFlushesAfterBlock(e, s, src);
    ServedIsDue(e, s, src);
  }

  /** An engine that keeps a byte back, blocks, and gives the byte up when flushed. */
  function KeepsOne(): Engine<Bytes>
  {
    Engine((s: Bytes, data: Bytes) => Step(data, Own([]), true), Some((s: Bytes) => Some(s)))
  }

  /** For that one it does not: the byte of a blocked stream is delivered after the block. */
  lemma FlushedAfterBlock(b: byte)
    ensures var src := [Chunk([b], true)];
      Due(KeepsOne(), [], src) == NOTHING && Served(KeepsOne(), [], src) == Service([b], false)
  {
    assert [Chunk([b], true)][1..] == [];
  }

  /** A filter that changes nothing, and one that keeps all it is given until it is flushed. */
  function Echo(): Engine<Bytes>
  {
    Engine((s: Bytes, data: Bytes) => Step(s, Alias(|data|), false), None)
  }

  function Hoard(): Engine<Bytes>
  {
    Engine((s: Bytes, data: Bytes) => Step(s + data, Own([]), false), Some((s: Bytes) => Some(s)))
  }

  /** What a source reads, in all. */
  function Source(src: seq<Chunk>): Bytes
  {
    if src == [] then [] else src[0].data + Source(src[1..])
  }

  /** Through either the whole source is delivered. */
  lemma {:induction false} AllDelivered(s: Bytes, src: seq<Chunk>)
    ensures Due(Echo(), s, src) == Served(Echo(), s, src) == Service(Source(src), false)
    ensures Due(Hoard(), s, src) == Served(Hoard(), s, src) == Service(s + Source(src), false)
    decreases |src|
  {
    if src == [] {
      assert s + Source(src) == s;
    } else {
      AllDelivered(s, src[1..]);
      AllDelivered(s + src[0].data, src[1..]);
      assert src[0].data[..|src[0].data|] == src[0].data;
      assert s + src[0].data + Source(src[1..]) == s + Source(src);
      if src[0].data == [] {
        assert s + src[0].data == s;
      }
    }
  }

  // ---------------------------------------------------------------- the reader

  /** Undelivered output: a stretch of the scratch buffer, or bytes of its own. */
  datatype View = Window(lo: nat, hi: nat) | Held(bytes: Bytes)

  datatype Result = Data(n: nat) | Eof | Error

  /** Only the last read of a source can carry end of file. */
  ghost predicate EofLast(src: seq<Chunk>)
  {
    forall i | 0 <= i < |src| && src[i].eof :: i == |src| - 1
  }

  class InspectReader<S> {
    const engine: Engine<S>
    const scratch: array<byte>
    var state: S
    var src: seq<Chunk>
    var out: View
    var blocked: bool
    var flushed: bool
    ghost var delivered: Bytes
    ghost var owed: Bytes      // what is still to be delivered
    ghost const total: Service

    ghost function Undelivered(): Bytes
      reads this, scratch
    {
      match out
      case Window(lo, hi) => if lo <= hi <= scratch.Length then scratch[lo..hi] else []
      case Held(b) => b
    }

    predicate OutEmpty()
      reads this
    {
      match out
      case Window(lo, hi) => lo >= hi
      case Held(b) => b == []
    }

    /** What is still to come from the source and the engine. */
    ghost function Coming(): Service
      reads this
    {
      if blocked || flushed then NOTHING else Served(engine, state, src)
    }

    /** Nothing is lost, invented or reordered: delivered, waiting and coming make up the total. */
    ghost predicate Valid()
      reads this, scratch
    {
      && delivered + owed == total.bytes && owed == Undelivered() + Coming().bytes && total.failed == Coming().failed
      && EofLast(src) && (forall i | 0 <= i < |src| :: |src[i].data| <= scratch.Length)
      && (out.Window? ==> out.lo <= out.hi <= scratch.Length)
      && (flushed ==> blocked || src == [])
    }

    constructor (engine: Engine<S>, state: S, src: seq<Chunk>, size: nat)
      requires EofLast(src) && forall i | 0 <= i < |src| :: |src[i].data| <= size
      ensures Valid() && total == Served(engine, state, src) && delivered == [] && fresh(scratch)
    {
      this.engine, this.state, this.src := engine, state, src;
      scratch := new byte[size];
      out, blocked, flushed := Held([]), false, false;
      total := Served(engine, state, src);
      delivered, owed := [], Served(engine, state, src).bytes;
    }

    /** The source writes its bytes over the scratch buffer. */
    method Fill(data: Bytes)
      requires |data| <= scratch.Length
      modifies scratch
      ensures scratch[..|data|] == data
    {
      for i := 0 to |data|
        invariant scratch[..i] == data[..i]
      {
        scratch[i] := data[i];
      }
    }

    ghost predicate Sane()
      reads this
    {
      && EofLast(src) && (forall i | 0 <= i < |src| :: |src[i].data| <= scratch.Length)
      && (out.Window? ==> out.lo <= out.hi <= scratch.Length)
    }

    /** What a flush now would add, unless it is too late for one. */
    ghost function AtEnd(): Service
      reads this
    {
      if (OutEmpty() || !blocked) && !flushed then FlushOf(engine, state) else NOTHING
    }

    /** One source read and its inspection. */
    method Pull() returns (eof: bool, failed: bool)
      requires Valid() && OutEmpty() && !blocked
      modifies this, scratch
      ensures delivered == old(delivered) && owed == old(owed)
      ensures failed ==> owed == [] && total.failed
      ensures !failed ==> Sane()
      ensures !failed && !eof ==>
        !flushed && |src| < |old(src)| && owed == Undelivered() + Coming().bytes && total.failed == Coming().failed
      ensures !failed && eof ==>
        src == [] && flushed == old(flushed) && owed == Undelivered() + AtEnd().bytes && total.failed == AtEnd().failed
    {
      assert Undelivered() == [];
      if src == [] {
        return true, false;
      }
      assert owed == Served(engine, state, src).bytes;
      var c := src[0];
      src := src[1..];
      eof, failed := c.eof, false;
      if |c.data| > 0 {
        failed := Inspect(c.data);
      } else {
        assert owed == Undelivered() + Served(engine, state, src).bytes;
      }
    }

    /** The chunk goes into the scratch buffer and through the engine; the answer may point into that buffer. */
    method Inspect(data: Bytes) returns (failed: bool)
      requires |data| <= scratch.Length
      modifies this`state, this`blocked, this`out, scratch
      ensures failed <==> engine.process(old(state), data).Failed?
      ensures !failed ==> var r := engine.process(old(state), data);
        && state == r.state && blocked == r.blocked
        && Undelivered() == Value(r.out, data) && (out.Window? ==> out.lo <= out.hi <= scratch.Length)
        && (OutEmpty() <==> Value(r.out, data) == [])
    {
      Fill(data);
      match engine.process(state, data)
      case Failed =>
        failed := true;
      case Step(s', o, b) =>
        failed, state, blocked := false, s', b;
        match o {
          case Alias(n) =>
            out := Window(0, if n <= |data| then n else |data|);
          case Own(bytes) => out := Held(bytes);
        }
    }

    /** flushEngine: at most once; the engine's own error is passed on. */
    method FlushEngine() returns (failed: bool)
      modifies this`flushed, this`out
      ensures flushed
      ensures old(flushed) ==> !failed && out == old(out)
      ensures !old(flushed) ==> failed == FlushOf(engine, state).failed
      ensures !old(flushed) && !failed ==>
        out == if engine.flush.None? then old(out) else Held(FlushOf(engine, state).bytes)
    {
      if flushed {
        return false;
      }
      flushed := true;
      if engine.flush.None? {
        return false;
      }
      match engine.flush.value(state)
      case None =>
        failed := true;
      case Some(b) =>
        failed, out := false, Held(b);
    }

    /**
     Read: either the next bytes that are due, as many as fit and at least one, or, when everything due has been
     delivered, end of file, or an error exactly if the run ends in a failure of the engine or its flush.
     */
    method Read(p: array<byte>) returns (r: Result)
      requires Valid() && p.Length > 0 && p != scratch
      modifies this, scratch, p
      ensures r.Data? ==> Valid() && 0 < r.n <= p.Length && delivered == old(delivered) + p[..r.n]
      ensures r.Eof? ==> Valid() && delivered == old(delivered) == total.bytes && !total.failed
      ensures r.Error? ==> delivered == old(delivered) == total.bytes && total.failed
    {
      hide Served;
      while OutEmpty()
        invariant Valid() && delivered == old(delivered)
        decreases |src|
      {
        if blocked {
          EndReached();
          return Eof;
        }
        var eof, failed := Pull();
        if failed {
          return Error;
        }
        if eof {
          failed := SourceEnds();
          if failed {
            return Error;
          }
          if !OutEmpty() {
            break;
          }
          EndReached();
          return Eof;
        }
      }
      r := Deliver(p);
    }

    /** End of file: what is waiting goes first; otherwise the engine is flushed. */
    method SourceEnds() returns (failed: bool)
      requires Sane() && src == [] && delivered + owed == total.bytes
      requires owed == Undelivered() + AtEnd().bytes && total.failed == AtEnd().failed
      modifies this
      ensures delivered == old(delivered) && owed == old(owed) && (failed ==> owed == [] && total.failed)
      ensures !failed ==> Valid() && (OutEmpty() ==> flushed)
    {
      hide Served;
      ServedEnd(engine, state);
      if !OutEmpty() {
        return false;
      }
      assert Undelivered() == [];
      failed := FlushEngine();
    }

    lemma EndReached()
      requires Valid() && OutEmpty() && (blocked || flushed)
      ensures delivered == total.bytes && !total.failed
    {
      assert Undelivered() == [];
    }

    /** copy(p, r.out): the front of what is waiting goes to the caller. */
    method Deliver(p: array<byte>) returns (r: Result)
      requires Valid() && !OutEmpty() && p.Length > 0 && p != scratch
      modifies this, p
      ensures r.Data? && Valid() && 0 < r.n <= p.Length && delivered == old(delivered) + p[..r.n]
      ensures r.n == if p.Length < |old(Undelivered())| then p.Length else |old(Undelivered())|
      ensures Undelivered() == old(Undelivered())[r.n..]
    {
      hide Served;
      var n := CopyOut(p);
      ghost var waiting, coming := Undelivered(), Coming().bytes;
      out := match out case Window(lo, hi) => Window(lo + n, hi) case Held(b) => Held(b[n..]);
      assert Undelivered() == waiting[n..];
      Rebalance(delivered, waiting, coming, n);
      delivered, owed := delivered + p[..n], waiting[n..] + coming;
      return Data(n);
    }

    method CopyOut(p: array<byte>) returns (n: nat)
      requires Sane() && !OutEmpty() && p.Length > 0 && p != scratch
      modifies p
      ensures 0 < n <= p.Length && n == (if p.Length < |Undelivered()| then p.Length else |Undelivered()|)
      ensures p[..n] == Undelivered()[..n]
    {
      var size := match out case Window(lo, hi) => hi - lo case Held(b) => |b|;
      n := if p.Length < size then p.Length else size;
      for i := 0 to n
        invariant p[..i] == Undelivered()[..i]
      {
        p[i] := match out case Window(lo, hi) => scratch[lo + i] case Held(b) => b[i];
        assert p[i] == Undelivered()[i];
      }
    }
  }

  lemma ServedEnd<S>(e: Engine<S>, s: S)
    ensures Served(e, s, []) == FlushOf(e, s)
  {
  }

  lemma Rebalance(sent: Bytes, waiting: Bytes, coming: Bytes, n: nat)
    requires n <= |waiting|
    ensures sent + (waiting + coming) == (sent + waiting[..n]) + (waiting[n..] + coming)
  {
  }

  /**
   A whole run, whatever the sizes asked for: the caller gets exactly what is served, then end of file, or an error
   exactly if the run ends in one.
   */
  method ReadAll<S>(reader: InspectReader<S>, size: nat -> nat) returns (all: Bytes, failed: bool)
    requires reader.Valid() && reader.delivered == [] && forall i :: size(i) > 0
    modifies reader, reader.scratch
    ensures Service(all, failed) == reader.total
  {
    all := [];
    var i := 0;
    while true
      invariant reader.Valid() && reader.delivered == all
      decreases |reader.total.bytes| - |all|
    {
      var p := new byte[size(i)];
      var r := reader.Read(p);
      match r {
        case Eof => return all, false;
        case Error => return all, true;
        case Data(n) => all := all + p[..n];
      }
      i := i + 1;
    }
  }
}
