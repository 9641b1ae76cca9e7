/** The MIME sniffer: holds the first bytes of a stream until it can tell what the stream is, then lets it all through or none of it. */
module Magic {

  import opened Bytes

  const SNIFF := 512

  /** The bytes the decision is taken on. */
  function Sniffed(s: Bytes): (r: Bytes)
    ensures |r| <= SNIFF && r <= s
  {
    if |s| <= SNIFF then s else s[..SNIFF]
  }

  /** The sniffer's fields, and what it answers to a chunk. */
  datatype Sniffer = Sniffer(pending: Bytes, decided: bool, blocked: bool)

  datatype Verdict = Verdict(state: Sniffer, out: Bytes, stop: bool)

  /** The decision on the held bytes: they and the tail go out, or nothing. */
  function Commit(detect: Bytes -> string, banned: set<string>, held: Bytes, tail: Bytes): Verdict
  {
    if detect(held) in banned then Verdict(Sniffer([], true, true), [], true)
    else Verdict(Sniffer([], true, false), held + tail, false)
  }

  function SniffStep(detect: Bytes -> string, banned: set<string>, s: Sniffer, chunk: Bytes): Verdict
  {
    if s.blocked then Verdict(s, [], true)
    else if s.decided then Verdict(s, chunk, false)
    else if chunk == [] then Verdict(s, [], false)
    else
      var all := s.pending + chunk;
      if |all| < SNIFF then Verdict(s.(pending := all), [], false)
      else Commit(detect, banned, all[..SNIFF], all[SNIFF..])
  }

  function SniffEnd(detect: Bytes -> string, banned: set<string>, s: Sniffer): Verdict
  {
    if s.blocked || s.decided then Verdict(s, [], false) else Commit(detect, banned, s.pending, [])
  }

  class MagicStream {
    const detect: Bytes -> string      // detectMagicType
    const blockedTypes: set<string>
    var pending: Bytes
    var decided: bool
    var blocked: bool
    ghost var received: Bytes
    ghost var emitted: Bytes

    function State(): Sniffer
      reads this
    {
      Sniffer(pending, decided, blocked)
    }

    predicate Banned(s: Bytes)
    {
      detect(Sniffed(s)) in blockedTypes
    }

    /** Undecided: all is held. Decided: all or nothing went out, as the first bytes alone demand. */
    ghost predicate Valid()
      reads this
    {
      && (!decided ==> !blocked && emitted == [] && pending == received && |received| < SNIFF)
      && (decided ==> pending == [] && |received| >= SNIFF && blocked == Banned(received))
      && (decided && !blocked ==> emitted == received)
      && (blocked ==> emitted == [])
    }

    constructor (detect: Bytes -> string, blockedTypes: set<string>)
      ensures Valid() && received == [] && emitted == []
    {
      this.detect, this.blockedTypes := detect, blockedTypes;
      pending, decided, blocked, received, emitted := [], false, false, [], [];
    }

    method ProcessChunk(chunk: Bytes) returns (out: Bytes, stop: bool)
      requires Valid()
      modifies this
      ensures Valid() && received == old(received) + chunk && emitted == old(emitted) + out && stop == blocked
      ensures chunk == [] ==> out == [] && unchanged(this)
      ensures Verdict(State(), out, stop) == SniffStep(detect, blockedTypes, old(State()), chunk)
    {
      assert chunk == [] ==> received + chunk == received && emitted + chunk == emitted;
      if blocked {
        SniffStable(received, chunk);
        received := received + chunk;
        return [], true;
      }
      if decided {
        SniffStable(received, chunk);
        received, emitted := received + chunk, emitted + chunk;
        return chunk, false;
      }
      if chunk == [] {
        return [], false;
      }
      var need := SNIFF - |pending|;
      ghost var all := pending + chunk;
      var tail := [];
      received := received + chunk;
      if |chunk| <= need {
        pending := pending + chunk;
      } else {
        assert received == pending + chunk[..need] + chunk[need..];
        pending := pending + chunk[..need];
        tail := chunk[need..];
      }
      if |pending| < SNIFF {
        return [], false;
      }
      assert all[..SNIFF] == pending && all[SNIFF..] == tail;
      out, stop := CommitDecision(tail);
      emitted := emitted + out;
    }

    method CommitDecision(tail: Bytes) returns (out: Bytes, stop: bool)
      requires |pending| <= SNIFF && !blocked
      modifies this`pending, this`decided, this`blocked
      ensures decided && pending == [] && blocked == stop == (detect(old(pending)) in blockedTypes)
      ensures out == if stop then [] else old(pending) + tail
      ensures Verdict(State(), out, stop) == Commit(detect, blockedTypes, old(pending), tail)
    {
      decided := true;
      if detect(pending) in blockedTypes {
        blocked := true;
        pending := [];
        return [], true;
      }
      out := if tail == [] then pending else pending + tail;
      pending := [];
      return out, false;
    }

    /** Flush decides on a short stream; then, too, everything went out or nothing did. */
    method Flush() returns (out: Bytes)
      requires Valid()
      modifies this
      ensures received == old(received) && emitted == old(emitted) + out
      ensures blocked == Banned(received) && emitted == if blocked then [] else received
      ensures var a := SniffEnd(detect, blockedTypes, old(State())); State() == a.state && out == a.out
    {
      if blocked || decided {
        return [];
      }
      var stop;
      out, stop := CommitDecision([]);
      emitted := emitted + out;
    }
  }

  lemma SniffStable(s: Bytes, more: Bytes)
    requires |s| >= SNIFF
    ensures Sniffed(s + more) == Sniffed(s)
  {
  }

  /** A whole stream in any chunks: out whole, or not at all, by its first bytes only. */
  method SniffAll(stream: MagicStream, chunks: seq<Bytes>) returns (out: Bytes)
    requires stream.Valid() && stream.received == [] && stream.emitted == []
    modifies stream
    ensures out == if stream.Banned(Concat(chunks)) then [] else Concat(chunks)
    ensures var t := Concat(chunks);
      out == if stream.detect(if |t| > 512 then t[..512] else t) in stream.blockedTypes then [] else t
  {
    out := [];
    for i := 0 to |chunks|
      invariant stream.Valid() && stream.emitted == out && stream.received == Concat(chunks[..i])
    {
      assert chunks[..i + 1] == chunks[..i] + [chunks[i]];
      ConcatSnoc(chunks[..i], chunks[i]);
      var piece, _ := stream.ProcessChunk(chunks[i]);
      out := out + piece;
    }
    assert chunks[..|chunks|] == chunks;
    var rest := stream.Flush();
    out := out + rest;
  }
}
