/**
 The masking filter: phrases are starred out of a stream that arrives in arbitrary chunks, keeping
 back just enough bytes that no phrase can slip through across a chunk boundary.
 */
module Masking {

  import opened Bytes

  ghost predicate StarFree(p: Bytes)
  {
    STAR !in p
  }

  ghost predicate Survives(p: Bytes, t: Bytes)
  {
    exists i :: FoldsAt(p, t, i)
  }

  /** Byte k of t lies in a stretch that reads as a phrase, a '*' in the phrase standing for any byte. */
  ghost predicate Covered(phrases: seq<Bytes>, t: Bytes, k: int)
  {
    exists q, j :: CoversAt(phrases, t, q, j, k)
  }

  ghost predicate CoversAt(phrases: seq<Bytes>, t: Bytes, q: int, j: int, k: int)
  {
    && 0 <= q < |phrases| && 0 <= j <= k < j + |phrases[q]| <= |t|
    && forall m | 0 <= m < |phrases[q]| :: Lower(t[j + m]) == phrases[q][m] || phrases[q][m] == STAR
  }

  /** With only star-free phrases a covered byte lies inside an occurrence of a phrase. */
  lemma CoveredIsOccurrence(phrases: seq<Bytes>, t: Bytes, k: int)
    requires forall q | 0 <= q < |phrases| :: StarFree(phrases[q])
    ensures Covered(phrases, t, k) <==>
      exists q, j :: 0 <= q < |phrases| && j <= k < j + |phrases[q]| && FoldsAt(phrases[q], t, j)
  {
    if Covered(phrases, t, k) {
      var q, j :| CoversAt(phrases, t, q, j, k);
      assert FoldsAt(phrases[q], t, j);
    }
    if q, j :| 0 <= q < |phrases| && j <= k < j + |phrases[q]| && FoldsAt(phrases[q], t, j) {
      assert CoversAt(phrases, t, q, j, k);
    }
  }

  /** Stars and nothing else from j on, n of them. */
  ghost predicate StarsAt(t: Bytes, j: int, n: int)
  {
    0 <= j && j + n <= |t| && forall k | j <= k < j + n :: t[k] == STAR
  }

  /** Byte k lies in a stretch that reads as a phrase in src and is nothing but stars afterwards. */
  ghost predicate StarredOut(phrases: seq<Bytes>, src: Bytes, after: Bytes, k: int)
  {
    exists q, j :: CoversAt(phrases, src, q, j, k) && StarsAt(after, j, |phrases[q]|)
  }

  /** after is src with some bytes starred: whole stretches, each of them as long as a phrase and covered by it in src. */
  ghost predicate StarredFrom(phrases: seq<Bytes>, src: Bytes, after: Bytes)
  {
    && |after| == |src|
    && forall k | 0 <= k < |src| :: after[k] == src[k] || StarredOut(phrases, src, after, k)
  }

  /** More stars in the same places: a star-free phrase that occurs now occurred before. */
  lemma StarsOnlyRemove(p: Bytes, before: Bytes, after: Bytes, i: int)
    requires StarFree(p) && |before| == |after| && forall k | 0 <= k < |before| :: after[k] == before[k] || after[k] == STAR
    ensures FoldsAt(p, after, i) ==> FoldsAt(p, before, i)
  {
  }

  /** A starred byte stays in a stretch of stars when more are added. */
  lemma StarredMore(phrases: seq<Bytes>, src: Bytes, after: Bytes, more: Bytes, k: int)
    requires StarredOut(phrases, src, after, k) && |after| <= |more|
    requires forall m | 0 <= m < |after| :: more[m] == after[m] || more[m] == STAR
    ensures StarredOut(phrases, src, more, k)
  {
    var q, j :| CoversAt(phrases, src, q, j, k) && StarsAt(after, j, |phrases[q]|);
    assert StarsAt(more, j, |phrases[q]|);
  }

  /** A starred byte is a star. */
  lemma StarredIsStar(phrases: seq<Bytes>, src: Bytes, after: Bytes, k: int)
    requires StarredOut(phrases, src, after, k)
    ensures 0 <= k < |after| && after[k] == STAR
  {
  }

  /** A match found in a partly starred text is covered in the text it came from. */
  lemma MatchCovers(phrases: seq<Bytes>, src: Bytes, now: Bytes, q: nat, i: nat, k: int)
    requires q < |phrases| && StarredFrom(phrases, src, now) && FoldsAt(phrases[q], now, i) && i <= k < i + |phrases[q]|
    ensures CoversAt(phrases, src, q, i, k)
  {
    StarredShape(phrases, src, now);
  }

  // ---------------------------------------------------------------- across chunk boundaries

  lemma StarredExtends(phrases: seq<Bytes>, src: Bytes, after: Bytes, more: Bytes)
    requires StarredFrom(phrases, src, after)
    ensures StarredFrom(phrases, src + more, after + more)
  {
    forall k | 0 <= k < |src| && after[k] != src[k] ensures StarredOut(phrases, src + more, after + more, k) {
      var q, j :| CoversAt(phrases, src, q, j, k) && StarsAt(after, j, |phrases[q]|);
      assert CoversAt(phrases, src + more, q, j, k) && StarsAt(after + more, j, |phrases[q]|);
    }
  }

  /** Masking a tail of the text: what is starred out of the tail is starred out of the whole. */
  lemma StarredTail(phrases: seq<Bytes>, src: Bytes, head: Bytes, tail: Bytes, tail': Bytes)
    requires StarredFrom(phrases, src, head + tail) && StarredFrom(phrases, tail, tail')
    ensures StarredFrom(phrases, src, head + tail')
  {
    hide StarredOut;
    StarredShape(phrases, tail, tail');
    StarredShape(phrases, src, head + tail);
    forall k | 0 <= k < |src| && (head + tail')[k] != src[k]
      ensures StarredOut(phrases, src, head + tail', k)
    {
      if k >= |head| && tail'[k - |head|] != tail[k - |head|] {
        StarredBehind(phrases, src, head, tail, tail', k);
      } else {
        StarredMore(phrases, src, head + tail, head + tail', k);
      }
    }
  }

  lemma StarredBehind(phrases: seq<Bytes>, src: Bytes, head: Bytes, tail: Bytes, tail': Bytes, k: int)
    requires |src| == |head + tail| && |tail'| == |tail| && StarredOut(phrases, tail, tail', k - |head|)
    requires forall m | 0 <= m < |src| :: (head + tail)[m] == src[m] || (head + tail)[m] == STAR
    ensures StarredOut(phrases, src, head + tail', k)
  {
    var q, j :| CoversAt(phrases, tail, q, j, k - |head|) && StarsAt(tail', j, |phrases[q]|);
    assert forall m | 0 <= m < |tail| :: (head + tail)[|head| + m] == tail[m];
    assert CoversAt(phrases, src, q, |head| + j, k);
    assert StarsAt(head + tail', |head| + j, |phrases[q]|);
  }

  /** An occurrence in the joined text is one in the new tail, or ends inside head + old tail and was there before. */
  lemma OccurrencePlace(p: Bytes, head: Bytes, tail: Bytes, more: Bytes, tail': Bytes, i: int)
    requires StarFree(p) && p != [] && FoldsAt(p, head + tail', i)
    requires |tail'| == |tail + more| && forall k | 0 <= k < |tail'| :: tail'[k] == (tail + more)[k] || tail'[k] == STAR
    requires head == [] || |p| <= |tail| + 1
    ensures FoldsAt(p, tail', i - |head|) || FoldsAt(p, head + tail, i)
  {
  }

  /**
   No survivor: none in head + old tail, none in the new tail, and the old tail is long enough (or the
   head empty) that an occurrence cannot straddle it whole.
   */
  lemma NoSurvivorJoins(p: Bytes, head: Bytes, tail: Bytes, more: Bytes, tail': Bytes)
    requires StarFree(p) && p != [] && !Survives(p, head + tail) && !Survives(p, tail')
    requires |tail'| == |tail + more| && forall k | 0 <= k < |tail'| :: tail'[k] == (tail + more)[k] || tail'[k] == STAR
    requires head == [] || |p| <= |tail| + 1
    ensures !Survives(p, head + tail')
  {
    if i :| FoldsAt(p, head + tail', i) {
      OccurrencePlace(p, head, tail, more, tail', i);
    }
  }

  // ---------------------------------------------------------------- one masking pass

  /** No star-free phrase is left; empty phrases do not count. */
  ghost predicate NoSurvivors(phrases: seq<Bytes>, t: Bytes)
  {
    forall q | 0 <= q < |phrases| && phrases[q] != [] && StarFree(phrases[q]) :: !Survives(phrases[q], t)
  }

  /** Phrases that could match at offset i or earlier no longer do; at i itself, the first n have been tried. */
  ghost predicate Tried(phrases: seq<Bytes>, t: Bytes, i: int, n: int)
  {
    forall q, j | 0 <= q < |phrases| && StarFree(phrases[q]) && (0 <= j < i || (j == i && q < n)) :: !FoldsAt(phrases[q], t, j)
  }

  function StarRange(t: Bytes, i: nat, n: nat): (r: Bytes)
    requires i + n <= |t|
    ensures |r| == |t| && forall k | 0 <= k < |t| :: r[k] == if i <= k < i + n then STAR else t[k]
  {
    seq(|t|, k requires 0 <= k < |t| => if i <= k < i + n then STAR else t[k])
  }

  /** The text after the phrases from q on have been tried at offset i. */
  function TryPhrases(phrases: seq<Bytes>, t: Bytes, i: nat, q: nat): (r: Bytes)
    ensures |r| == |t|
    decreases |phrases| - q
  {
    if q >= |phrases| then t
    else TryPhrases(phrases, if FoldsAt(phrases[q], t, i) then StarRange(t, i, |phrases[q]|) else t, i, q + 1)
  }

  /** The text after offsets from i on have been masked, left to right. */
  function MaskFrom(phrases: seq<Bytes>, t: Bytes, i: nat): (r: Bytes)
    ensures |r| == |t|
    decreases |t| - i
  {
    if i >= |t| then t else MaskFrom(phrases, TryPhrases(phrases, t, i, 0), i + 1)
  }

  lemma StarKeepsTried(phrases: seq<Bytes>, t: Bytes, i: nat, q: nat)
    requires q < |phrases| && phrases[q] != [] && i + |phrases[q]| <= |t| && Tried(phrases, t, i, q)
    ensures Tried(phrases, StarRange(t, i, |phrases[q]|), i, q + 1)
  {
    var t' := StarRange(t, i, |phrases[q]|);
    forall r, j | 0 <= r < |phrases| && StarFree(phrases[r]) && (0 <= j < i || (j == i && r < q + 1))
      ensures !FoldsAt(phrases[r], t', j)
    {
      StarsOnlyRemove(phrases[r], t, t', j);
      if j == i && r == q {
        assert t'[i + 0] == STAR && Lower(STAR) == STAR && phrases[r][0] in phrases[r];
      }
    }
  }

  lemma StarKeepsSource(phrases: seq<Bytes>, src: Bytes, t: Bytes, i: nat, q: nat)
    requires q < |phrases| && StarredFrom(phrases, src, t) && FoldsAt(phrases[q], t, i)
    ensures StarredFrom(phrases, src, StarRange(t, i, |phrases[q]|))
  {
    hide StarredOut;
    var t' := StarRange(t, i, |phrases[q]|);
    assert StarsAt(t', i, |phrases[q]|);
    forall k | 0 <= k < |src| && t'[k] != src[k]
      ensures StarredOut(phrases, src, t', k)
    {
      if i <= k < i + |phrases[q]| {
        MatchCovers(phrases, src, t, q, i, k);
        StarredWhole(phrases, src, t', q, i, k);
      } else {
        StarredMore(phrases, src, t, t', k);
      }
    }
  }

  lemma StarredWhole(phrases: seq<Bytes>, src: Bytes, after: Bytes, q: nat, j: int, k: int)
    requires CoversAt(phrases, src, q, j, k) && StarsAt(after, j, |phrases[q]|)
    ensures StarredOut(phrases, src, after, k)
  {
  }

  ghost predicate NonEmptyPhrases(phrases: seq<Bytes>)
  {
    forall q | 0 <= q < |phrases| :: phrases[q] != []
  }

  lemma {:induction false} TryGood(phrases: seq<Bytes>, src: Bytes, t: Bytes, i: nat, q: nat)
    requires NonEmptyPhrases(phrases) && q <= |phrases| && StarredFrom(phrases, src, t) && Tried(phrases, t, i, q)
    ensures var r := TryPhrases(phrases, t, i, q); StarredFrom(phrases, src, r) && Tried(phrases, r, i + 1, 0)
    decreases |phrases| - q
  {
    hide StarredFrom;
    if q < |phrases| {
      if FoldsAt(phrases[q], t, i) {
        StarKeepsTried(phrases, t, i, q);
        StarKeepsSource(phrases, src, t, i, q);
        TryGood(phrases, src, StarRange(t, i, |phrases[q]|), i, q + 1);
      } else {
        TryGood(phrases, src, t, i, q + 1);
      }
    }
  }

  lemma {:induction false} MaskGood(phrases: seq<Bytes>, src: Bytes, t: Bytes, i: nat)
    requires NonEmptyPhrases(phrases) && i <= |t| && StarredFrom(phrases, src, t) && Tried(phrases, t, i, 0)
    ensures var r := MaskFrom(phrases, t, i); StarredFrom(phrases, src, r) && NoSurvivors(phrases, r)
    decreases |t| - i
  {
    hide StarredFrom, TryPhrases;
    if i < |t| {
      TryGood(phrases, src, t, i, 0);
      MaskGood(phrases, src, TryPhrases(phrases, t, i, 0), i + 1);
    }
  }

  /** One pass stars only covered bytes and leaves no star-free phrase anywhere. */
  lemma MaskedOnce(phrases: seq<Bytes>, t: Bytes)
    requires NonEmptyPhrases(phrases)
    ensures var r := MaskFrom(phrases, t, 0); StarredFrom(phrases, t, r) && NoSurvivors(phrases, r)
  {
    MaskGood(phrases, t, t, 0);
  }

  lemma {:induction false} NothingToMask(t: Bytes, i: nat)
    ensures MaskFrom([], t, i) == t
    decreases |t| - i
  {
    if i < |t| {
      NothingToMask(t, i + 1);
    }
  }

  // ---------------------------------------------------------------- the stream

  /** The bytes kept back: one less than the longest phrase. */
  function LookBack(maxLen: nat): nat
  {
    if maxLen == 0 then 0 else maxLen - 1
  }

  /** How much of a masked buffer goes out; the look-back stays. */
  function Leaving(maxLen: nat, t: Bytes): (n: nat)
    ensures n <= |t| && |t| - n <= LookBack(maxLen) && (n > 0 ==> |t| - n == LookBack(maxLen))
  {
    if |t| > LookBack(maxLen) then |t| - LookBack(maxLen) else 0
  }

  ghost predicate Fit(phrases: seq<Bytes>, maxLen: nat)
  {
    forall q | 0 <= q < |phrases| :: 0 < |phrases[q]| <= maxLen
  }

  /**
   What has gone out and what is kept back, together, are the input with covered bytes starred and no survivor,
   and no more than the look-back is kept.
   */
  ghost predicate Flow(phrases: seq<Bytes>, maxLen: nat, received: Bytes, emitted: Bytes, pending: Bytes)
  {
    && Fit(phrases, maxLen)
    && StarredFrom(phrases, received, emitted + pending)
    && NoSurvivors(phrases, emitted + pending)
    && |pending| <= LookBack(maxLen) && (emitted != [] ==> |pending| == LookBack(maxLen))
  }

  /** Masking the kept bytes together with more input leaves the whole stream masked. */
  lemma Absorb(phrases: seq<Bytes>, maxLen: nat, received: Bytes, emitted: Bytes, pending: Bytes, chunk: Bytes)
    requires Flow(phrases, maxLen, received, emitted, pending)
    ensures var t := MaskFrom(phrases, pending + chunk, 0);
      StarredFrom(phrases, received + chunk, emitted + t) && NoSurvivors(phrases, emitted + t)
  {
    hide StarredFrom, Survives, MaskFrom;
    var t := MaskFrom(phrases, pending + chunk, 0);
    MaskedOnce(phrases, pending + chunk);
    StarredExtends(phrases, received, emitted + pending, chunk);
    assert emitted + pending + chunk == emitted + (pending + chunk);
    StarredTail(phrases, received + chunk, emitted, pending + chunk, t);
    StarredShape(phrases, pending + chunk, t);
    forall q | 0 <= q < |phrases| && phrases[q] != [] && StarFree(phrases[q]) ensures !Survives(phrases[q], emitted + t) {
      NoSurvivorJoins(phrases[q], emitted, pending, chunk, t);
    }
  }

  /** A chunk comes in, everything but the look-back goes out. */
  lemma FlowStep(phrases: seq<Bytes>, maxLen: nat, received: Bytes, emitted: Bytes, pending: Bytes, chunk: Bytes)
    requires Flow(phrases, maxLen, received, emitted, pending)
    ensures var t := MaskFrom(phrases, pending + chunk, 0); var n := Leaving(maxLen, t);
      Flow(phrases, maxLen, received + chunk, emitted + t[..n], t[n..])
  {
    hide StarredFrom, NoSurvivors, MaskFrom;
    Absorb(phrases, maxLen, received, emitted, pending, chunk);
    var t := MaskFrom(phrases, pending + chunk, 0);
    var n := Leaving(maxLen, t);
    assert emitted + t == (emitted + t[..n]) + t[n..];
  }

  /** The kept bytes, masked once more, complete the masked stream. */
  lemma FlowEnd(phrases: seq<Bytes>, maxLen: nat, received: Bytes, emitted: Bytes, pending: Bytes)
    requires Flow(phrases, maxLen, received, emitted, pending)
    ensures var t := MaskFrom(phrases, pending, 0);
      StarredFrom(phrases, received, emitted + t) && NoSurvivors(phrases, emitted + t)
  {
    Absorb(phrases, maxLen, received, emitted, pending, []);
    assert pending + [] == pending && received + [] == received;
  }

  /** How much is kept back. */
  lemma FlowSize(phrases: seq<Bytes>, maxLen: nat, received: Bytes, emitted: Bytes, pending: Bytes)
    requires Flow(phrases, maxLen, received, emitted, pending) && maxLen > 0
    ensures |pending| == if |received| < maxLen then |received| else maxLen - 1
  {
    hide StarredOut;
    StarredShape(phrases, received, emitted + pending);
  }

  lemma FlowStart(phrases: seq<Bytes>, maxLen: nat)
    requires Fit(phrases, maxLen)
    ensures Flow(phrases, maxLen, [], [], [])
  {
  }

  /** The output for the chunks to come, with some bytes kept back already: the last ones are masked once more. */
  function Streamed(phrases: seq<Bytes>, maxLen: nat, pending: Bytes, chunks: seq<Bytes>): Bytes
    decreases |chunks|
  {
    if chunks == [] then MaskFrom(phrases, pending, 0)
    else if chunks[0] == [] then Streamed(phrases, maxLen, pending, chunks[1..])
    else
      var t := MaskFrom(phrases, pending + chunks[0], 0);
      var n := Leaving(maxLen, t);
      t[..n] + Streamed(phrases, maxLen, t[n..], chunks[1..])
  }

  class MaskingStream {
    const phrases: seq<Bytes>
    const maxLen: nat
    var pending: Bytes
    ghost var received: Bytes
    ghost var emitted: Bytes

    ghost predicate Valid()
      reads this
    {
      Flow(phrases, maxLen, received, emitted, pending)
    }

    constructor (phrases: seq<Bytes>, maxLen: nat)
      requires Fit(phrases, maxLen)
      ensures Valid() && received == [] && emitted == [] && pending == [] && this.phrases == phrases && this.maxLen == maxLen
    {
      this.phrases, this.maxLen := phrases, maxLen;
      pending, received, emitted := [], [], [];
      FlowStart(phrases, maxLen);
    }

    /** maskPending: star every phrase found, left to right, each phrase in turn at each offset. */
    method MaskPending()
      requires Fit(phrases, maxLen)
      modifies this`pending
      ensures pending == MaskFrom(phrases, old(pending), 0)
      ensures StarredFrom(phrases, old(pending), pending) && NoSurvivors(phrases, pending)
    {
      MaskedOnce(phrases, pending);
      for i := 0 to |pending|
        invariant |pending| == |old(pending)| && MaskFrom(phrases, old(pending), 0) == MaskFrom(phrases, pending, i)
      {
        for q := 0 to |phrases|
          invariant |pending| == |old(pending)|
          invariant MaskFrom(phrases, old(pending), 0) == MaskFrom(phrases, TryPhrases(phrases, pending, i, q), i + 1)
        {
          var p := phrases[q];
          if i + |p| > |pending| {
            continue;
          }
          if FoldsAt(p, pending, i) {
            Star(i, |p|);
          }
        }
      }
    }

    method Star(i: nat, n: nat)
      requires i + n <= |pending|
      modifies this`pending
      ensures pending == StarRange(old(pending), i, n)
    {
      for j := 0 to n
        invariant |pending| == |old(pending)|
        invariant forall k | 0 <= k < |pending| :: pending[k] == if i <= k < i + j then STAR else old(pending)[k]
      {
        pending := pending[i + j := STAR];
      }
    }

    /** ProcessChunk: the kept bytes and the chunk are masked together, and all but the look-back goes out. */
    method ProcessChunk(chunk: Bytes) returns (out: Bytes)
      requires Valid()
      modifies this
      ensures Valid() && received == old(received) + chunk && emitted == old(emitted) + out
      ensures chunk == [] ==> out == [] && unchanged(this)
      ensures chunk != [] ==> var t := MaskFrom(phrases, old(pending) + chunk, 0); var n := Leaving(maxLen, t);
        out == t[..n] && pending == t[n..]
      ensures maxLen > 0 ==> |pending| == if |received| < maxLen then |received| else maxLen - 1
    {
      hide MaskFrom, StarredFrom, NoSurvivors, Fit;
      FlowStep(phrases, maxLen, received, emitted, pending, chunk);
      if maxLen > 0 {
        ghost var t := MaskFrom(phrases, pending + chunk, 0);
        ghost var n := Leaving(maxLen, t);
        FlowSize(phrases, maxLen, received + chunk, emitted + t[..n], t[n..]);
        FlowSize(phrases, maxLen, received, emitted, pending);
      }
      if chunk == [] {
        assert received + chunk == received && emitted + chunk == emitted;
        return chunk;
      }
      received := received + chunk;
      if maxLen == 0 {
        NoPhrases(phrases, maxLen, old(received), emitted, pending, chunk);
        emitted := emitted + chunk;
        return chunk;
      }
      pending := pending + chunk;
      MaskPending();
      var emit := |pending| - (maxLen - 1);
      if emit <= 0 {
        assert emitted + pending[..0] == emitted;
        return [];
      }
      out := pending[..emit];
      pending := pending[emit..];
      emitted := emitted + out;
    }

    /** Flush: the rest is masked once more and goes out; the whole output then is the masked input. */
    method Flush() returns (out: Bytes)
      requires Valid()
      modifies this
      ensures received == old(received) && emitted == old(emitted) + out && pending == []
      ensures out == MaskFrom(phrases, old(pending), 0)
      ensures StarredFrom(phrases, received, emitted) && NoSurvivors(phrases, emitted)
    {
      hide MaskFrom, StarredFrom, NoSurvivors;
      FlowEnd(phrases, maxLen, received, emitted, pending);
      if pending == [] {
        MaskNothing(phrases);
        assert emitted + [] == emitted;
        return [];
      }
      MaskPending();
      out := pending;
      emitted := emitted + out;
      pending := [];
    }
  }

  lemma FitLength(phrases: seq<Bytes>)
    ensures Fit(phrases, 0) <==> phrases == []
  {
    if phrases != [] {
      assert !(0 < |phrases[0]| <= 0);
    }
  }

  /** Without phrases nothing is kept back and nothing masked. */
  lemma NoPhrases(phrases: seq<Bytes>, maxLen: nat, received: Bytes, emitted: Bytes, pending: Bytes, chunk: Bytes)
    requires Flow(phrases, maxLen, received, emitted, pending) && maxLen == 0
    ensures phrases == [] && pending == [] && MaskFrom(phrases, pending + chunk, 0) == chunk
    ensures Leaving(maxLen, chunk) == |chunk| && chunk[..|chunk|] == chunk && chunk[|chunk|..] == []
  {
    FitLength(phrases);
    NothingToMask(chunk, 0);
    assert pending + chunk == chunk;
  }

  lemma MaskNothing(phrases: seq<Bytes>)
    ensures MaskFrom(phrases, [], 0) == []
  {
  }

  lemma StarredShape(phrases: seq<Bytes>, src: Bytes, after: Bytes)
    requires StarredFrom(phrases, src, after)
    ensures |after| == |src| && forall k | 0 <= k < |src| :: after[k] == src[k] || after[k] == STAR
  {
    hide StarredOut;
    forall k | 0 <= k < |src| && after[k] != src[k]
      ensures after[k] == STAR
    {
      StarredIsStar(phrases, src, after, k);
    }
  }

  // ---------------------------------------------------------------- from the configured phrases

  /** The phrases that are kept: those that are not empty. */
  function NonEmpty(phrases: seq<Bytes>): seq<Bytes>
  {
    if phrases == [] then []
    else
      var last := phrases[|phrases| - 1];
      NonEmpty(phrases[..|phrases| - 1]) + if last == [] then [] else [last]
  }

  /** Dropping empty phrases changes neither what is covered nor what may survive. */
  lemma {:induction false} NonEmptySame(phrases: seq<Bytes>, p: Bytes)
    requires p != []
    ensures p in NonEmpty(phrases) <==> p in phrases
  {
    if phrases != [] {
      var front, last := phrases[..|phrases| - 1], phrases[|phrases| - 1];
      assert phrases == front + [last];
      NonEmptySame(front, p);
    }
  }

  lemma NonEmptyMasks(phrases: seq<Bytes>, src: Bytes, after: Bytes)
    requires StarredFrom(NonEmpty(phrases), src, after) && NoSurvivors(NonEmpty(phrases), after)
    ensures StarredFrom(phrases, src, after) && NoSurvivors(phrases, after)
  {
    var kept := NonEmpty(phrases);
    forall k | 0 <= k < |src| && StarredOut(kept, src, after, k) ensures StarredOut(phrases, src, after, k) {
      var q, j :| CoversAt(kept, src, q, j, k) && StarsAt(after, j, |kept[q]|);
      NonEmptySame(phrases, kept[q]);
      var r :| 0 <= r < |phrases| && phrases[r] == kept[q];
      StarredWhole(phrases, src, after, r, j, k);
    }
    forall q | 0 <= q < |phrases| && phrases[q] != [] && StarFree(phrases[q]) ensures !Survives(phrases[q], after) {
      NonEmptySame(phrases, phrases[q]);
      var r :| 0 <= r < |kept| && kept[r] == phrases[q];
    }
  }

  function Longest(phrases: seq<Bytes>): (n: nat)
    ensures forall q | 0 <= q < |phrases| :: |phrases[q]| <= n
    ensures n > 0 ==> exists q :: 0 <= q < |phrases| && |phrases[q]| == n
  {
    if phrases == [] then 0
    else
      var n, last := Longest(phrases[..|phrases| - 1]), phrases[|phrases| - 1];
      if |last| > n then |last| else n
  }

  /** What a masking stream puts out for a list of configured phrases and a chunked stream. */
  function MaskOutput(phrases: seq<Bytes>, chunks: seq<Bytes>): Bytes
  {
    Streamed(NonEmpty(phrases), Longest(phrases), [], chunks)
  }

  lemma {:induction false} KeptFit(phrases: seq<Bytes>)
    ensures Fit(NonEmpty(phrases), Longest(phrases))
  {
    if phrases != [] {
      KeptFit(phrases[..|phrases| - 1]);
    }
  }

  lemma {:induction false} NothingKept(phrases: seq<Bytes>)
    ensures Longest(phrases) == 0 <==> NonEmpty(phrases) == []
  {
    if phrases != [] {
      NothingKept(phrases[..|phrases| - 1]);
    }
  }

  /** NewMaskingFilter: empty phrases are dropped; the longest of the others is the look-back's measure. */
  method NewMaskingFilter(phrases: seq<Bytes>) returns (kept: seq<Bytes>, maxLen: nat)
    ensures kept == NonEmpty(phrases) && maxLen == Longest(phrases) && Fit(kept, maxLen)
    ensures maxLen == 0 <==> kept == []
  {
    kept, maxLen := [], 0;
    for i := 0 to |phrases|
      invariant kept == NonEmpty(phrases[..i]) && maxLen == Longest(phrases[..i])
    {
      assert phrases[..i + 1][..i] == phrases[..i];
      var p := phrases[i];
      if p == [] {
        continue;
      }
      kept := kept + [p];
      if |p| > maxLen {
        maxLen := |p|;
      }
    }
    assert phrases[..|phrases|] == phrases;
    KeptFit(phrases);
    NothingKept(phrases);
  }

  /** A whole stream in any chunks: same length, only covered bytes starred, no star-free phrase left anywhere. */
  method MaskAll(phrases: seq<Bytes>, chunks: seq<Bytes>) returns (out: Bytes)
    ensures |out| == |Concat(chunks)|
    ensures StarredFrom(phrases, Concat(chunks), out) && NoSurvivors(phrases, out)
    ensures out == MaskOutput(phrases, chunks)
  {
    hide MaskFrom, StarredFrom, NoSurvivors, Streamed, NonEmpty, Longest, Flow, Concat;
    var kept, maxLen := NewMaskingFilter(phrases);
    var stream := new MaskingStream(kept, maxLen);
    out := [];
    ghost var whole := Streamed(kept, maxLen, [], chunks);
    assert chunks[0..] == chunks && [] + whole == whole;
    for i := 0 to |chunks|
      invariant stream.Valid() && stream.phrases == kept && stream.maxLen == maxLen
      invariant whole == out + Streamed(kept, maxLen, stream.pending, chunks[i..])
    {
      StreamStep(kept, maxLen, stream.pending, chunks, i);
      ghost var before := out;
      var piece := stream.ProcessChunk(chunks[i]);
      out := out + piece;
      assert whole == before + (piece + Streamed(kept, maxLen, stream.pending, chunks[i + 1..]));
    }
    assert chunks[|chunks|..] == [];
    StreamEnd(kept, maxLen, stream.pending);
    var rest := stream.Flush();
    out := out + rest;
    OutputMasks(phrases, chunks);
    StarredShape(phrases, Concat(chunks), out);
  }

  lemma StreamEnd(phrases: seq<Bytes>, maxLen: nat, pending: Bytes)
    ensures Streamed(phrases, maxLen, pending, []) == MaskFrom(phrases, pending, 0)
  {
  }

  lemma StreamStep(phrases: seq<Bytes>, maxLen: nat, pending: Bytes, chunks: seq<Bytes>, i: nat)
    requires i < |chunks|
    ensures var t := MaskFrom(phrases, pending + chunks[i], 0); var n := Leaving(maxLen, t);
      Streamed(phrases, maxLen, pending, chunks[i..]) ==
        if chunks[i] == [] then Streamed(phrases, maxLen, pending, chunks[i + 1..])
        else t[..n] + Streamed(phrases, maxLen, t[n..], chunks[i + 1..])
  {
    hide MaskFrom;
    assert chunks[i..][1..] == chunks[i + 1..];
  }

  /** The pure form: whatever the chunks, what comes out of a stream is the masked input. */
  lemma {:induction false} StreamedMasks(phrases: seq<Bytes>, maxLen: nat, received: Bytes, emitted: Bytes, pending: Bytes, chunks: seq<Bytes>)
    requires Flow(phrases, maxLen, received, emitted, pending)
    ensures var out := emitted + Streamed(phrases, maxLen, pending, chunks);
      StarredFrom(phrases, received + Concat(chunks), out) && NoSurvivors(phrases, out)
    decreases |chunks|
  {
    hide MaskFrom, Flow, StarredFrom, NoSurvivors;
    if chunks == [] {
      FlowEnd(phrases, maxLen, received, emitted, pending);
      assert received + Concat(chunks) == received;
    } else {
      var c, rest := chunks[0], chunks[1..];
      assert received + Concat(chunks) == (received + c) + Concat(rest);
      if c == [] {
        assert received + c == received;
        StreamedMasks(phrases, maxLen, received, emitted, pending, rest);
      } else {
        var t := MaskFrom(phrases, pending + c, 0);
        var n := Leaving(maxLen, t);
        FlowStep(phrases, maxLen, received, emitted, pending, c);
        StreamedMasks(phrases, maxLen, received + c, emitted + t[..n], t[n..], rest);
        assert emitted + (t[..n] + Streamed(phrases, maxLen, t[n..], rest))
          == (emitted + t[..n]) + Streamed(phrases, maxLen, t[n..], rest);
      }
    }
  }

  // ---------------------------------------------------------------- phrases with a star

  /** Whatever else is configured and however the stream is cut, the phrase is not left in the output. */
  ghost predicate Safe(p: Bytes)
  {
    forall phrases: seq<Bytes>, chunks: seq<Bytes> | p in phrases :: !Survives(p, MaskOutput(phrases, chunks))
  }

  /** A byte that reads as itself when folded, is not a star and does not occur in the phrase. */
  predicate Spare(p: Bytes, c: byte)
  {
    Lower(c) == c && c != STAR && c !in p
  }

  /** The phrase with its stars replaced. */
  function Filled(p: Bytes, c: byte): (r: Bytes)
    ensures |r| == |p| && forall i | 0 <= i < |p| :: r[i] == if p[i] == STAR then c else p[i]
  {
    seq(|p|, i requires 0 <= i < |p| => if p[i] == STAR then c else p[i])
  }

  /** A text in which no phrase matches at any offset is left alone. */
  lemma {:induction false} NothingMatches(phrases: seq<Bytes>, t: Bytes, i: nat)
    requires forall q, j | 0 <= q < |phrases| && i <= j < |t| :: !FoldsAt(phrases[q], t, j)
    ensures MaskFrom(phrases, t, i) == t
    decreases |t| - i
  {
    if i < |t| {
      NoneTried(phrases, t, i, 0);
      NothingMatches(phrases, t, i + 1);
    }
  }

  lemma {:induction false} NoneTried(phrases: seq<Bytes>, t: Bytes, i: nat, q: nat)
    requires forall r | q <= r < |phrases| :: !FoldsAt(phrases[r], t, i)
    ensures TryPhrases(phrases, t, i, q) == t
    decreases |phrases| - q
  {
    if q < |phrases| {
      NoneTried(phrases, t, i, q + 1);
    }
  }

  lemma OneByteFolds(c: byte, t: Bytes, i: nat)
    requires i < |t|
    ensures FoldsAt([c], t, i) <==> Lower(t[i]) == c
  {
    assert [c][0] == c && t[i + 0] == t[i];
  }

  predicate Folded(p: Bytes)
  {
    forall k | 0 <= k < |p| :: Lower(p[k]) == p[k]
  }

  /** Trying both phrases at offset i of a text whose stars are back up to there. */
  lemma {:induction false} RefillOne(p: Bytes, c: byte, i: nat)
    requires Folded(p) && Spare(p, c) && STAR in p && i < |p|
    ensures TryPhrases([p, [c]], p[..i] + Filled(p, c)[i..], i, 0) == p[..i + 1] + Filled(p, c)[i + 1..]
  {
    var phrases, u := [p, [c]], Filled(p, c);
    var t, t' := p[..i] + u[i..], p[..i + 1] + u[i + 1..];
    assert !FoldsAt(p, t, i) by {
      var k :| 0 <= k < |p| && p[k] == STAR;
      if i == 0 {
        assert t[0 + k] == c;
      }
    }
    OneByteFolds(c, t, i);
    assert t[i] == u[i];
    if p[i] == STAR {
      assert StarRange(t, i, 1) == t';
    } else {
      assert Lower(t[i]) != c && t == t';
    }
    assert phrases[1] == [c];
    assert TryPhrases(phrases, t, i, 1) == TryPhrases(phrases, t', i, 2) == t';
  }

  /** Masking the filled phrase, with the filling byte to be masked too, puts the stars back one by one. */
  lemma {:induction false} Refills(p: Bytes, c: byte, i: nat)
    requires Folded(p) && Spare(p, c) && STAR in p && i <= |p|
    ensures MaskFrom([p, [c]], p[..i] + Filled(p, c)[i..], i) == p
    decreases |p| - i
  {
    hide Spare, Folded, Filled, TryPhrases;
    if i == |p| {
      assert p[..i] + Filled(p, c)[i..] == p;
    } else {
      RefillOne(p, c, i);
      Refills(p, c, i + 1);
    }
  }

  /** What is kept back of the phrase then goes out as it is. */
  lemma {:induction false} RestStays(p: Bytes, c: byte)
    requires Folded(p) && Spare(p, c) && p != []
    ensures MaskFrom([p, [c]], p[1..], 0) == p[1..]
  {
    var phrases, t := [p, [c]], p[1..];
    forall q, j | 0 <= q < |phrases| && 0 <= j < |t|
      ensures !FoldsAt(phrases[q], t, j)
    {
      OneByteFolds(c, t, j);
      assert t[j] == p[j + 1];
    }
    NothingMatches(phrases, t, 0);
  }

  lemma BothKept(p: Bytes, c: byte)
    requires p != []
    ensures NonEmpty([p, [c]]) == [p, [c]] && Longest([p, [c]]) == |p|
  {
    var phrases := [p, [c]];
    assert phrases[..1] == [p] && phrases[..1][..0] == phrases[..0];
    assert NonEmpty(phrases[..1]) == [p] && Longest(phrases[..1]) == |p|;
  }

  /** So a phrase with a star survives a stream made of it, when one byte it leaves out is masked as well. */
  lemma {:induction false} StarredPhraseSurvives(p: Bytes, c: byte)
    requires Folded(p) && Spare(p, c) && STAR in p
    ensures MaskOutput([p, [c]], [Filled(p, c)]) == p && Survives(p, p)
  {
    hide MaskFrom, Folded, Spare, NonEmpty, Longest, Filled, Streamed, Survives;
    WholeSurvives(p);
    BothKept(p, c);
    FilledStreams(p, c);
  }

  lemma FilledStreams(p: Bytes, c: byte)
    requires Folded(p) && Spare(p, c) && STAR in p
    ensures Streamed([p, [c]], |p|, [], [Filled(p, c)]) == p
  {
    hide MaskFrom, Folded, Spare, Filled, Streamed;
    var phrases, u := [p, [c]], Filled(p, c);
    assert MaskFrom(phrases, u, 0) == p by {
      assert p[..0] + u[0..] == u;
      Refills(p, c, 0);
    }
    RestStays(p, c);
    OneChunk(phrases, |p|, u);
    assert p[..1] + p[1..] == p;
  }

  lemma WholeSurvives(p: Bytes)
    requires Folded(p)
    ensures Survives(p, p)
  {
    assert FoldsAt(p, p, 0);
  }

  /** A stream of one chunk that is no longer than the longest phrase: one byte goes out, then the rest. */
  lemma OneChunk(phrases: seq<Bytes>, maxLen: nat, c: Bytes)
    requires |c| == maxLen > 0
    ensures var t := MaskFrom(phrases, c, 0); Streamed(phrases, maxLen, [], [c]) == t[..1] + MaskFrom(phrases, t[1..], 0)
  {
    hide MaskFrom, Streamed;
    var t := MaskFrom(phrases, c, 0);
    assert [] + c == c && [c][0..] == [c] && [c][1..] == [];
    StreamStep(phrases, maxLen, [], [c], 0);
    StreamEnd(phrases, maxLen, t[1..]);
  }

  /** Of the phrases that leave some byte out, exactly the star-free ones are safe. */
  lemma {:induction false} SafeIffStarFree(p: Bytes, c: byte)
    requires p != [] && Folded(p) && Spare(p, c)
    ensures Safe(p) <==> StarFree(p)
  {
    hide MaskOutput, Survives;
    if StarFree(p) {
      forall phrases: seq<Bytes>, chunks: seq<Bytes> | p in phrases ensures !Survives(p, MaskOutput(phrases, chunks)) {
        OutputMasks(phrases, chunks);
      }
    } else {
      StarredPhraseSurvives(p, c);
      assert [p, [c]][0] == p;
    }
  }

  lemma {:induction false} OutputMasks(phrases: seq<Bytes>, chunks: seq<Bytes>)
    ensures StarredFrom(phrases, Concat(chunks), MaskOutput(phrases, chunks)) && NoSurvivors(phrases, MaskOutput(phrases, chunks))
  {
    hide StarredFrom, NoSurvivors, Streamed, NonEmpty, Longest, Concat;
    var kept, maxLen := NonEmpty(phrases), Longest(phrases);
    KeptFit(phrases);
    FlowStart(kept, maxLen);
    StreamedMasks(kept, maxLen, [], [], [], chunks);
    var out := Streamed(kept, maxLen, [], chunks);
    assert [] + Concat(chunks) == Concat(chunks) && [] + out == out;
    NonEmptyMasks(phrases, Concat(chunks), out);
  }

  // ---------------------------------------------------------------- a single occurrence

  /** Of all the phrases, one occurs in s, at i and nowhere else, n bytes long. */
  ghost predicate OnlyAt(phrases: seq<Bytes>, s: Bytes, i: nat, n: nat)
  {
    && n > 0 && (exists q :: 0 <= q < |phrases| && |phrases[q]| == n && FoldsAt(phrases[q], s, i))
    && (forall q, j | 0 <= q < |phrases| && phrases[q] != [] && FoldsAt(phrases[q], s, j) :: j == i && |phrases[q]| == n)
  }

  /** Of star-free phrases exactly the one that occurs is starred, from its first byte to its last. */
  lemma OnlyStarred(phrases: seq<Bytes>, s: Bytes, out: Bytes, i: nat, n: nat)
    requires StarredFrom(phrases, s, out) && NoSurvivors(phrases, out) && OnlyAt(phrases, s, i, n)
    requires forall q | 0 <= q < |phrases| :: StarFree(phrases[q])
    ensures i + n <= |s| && out == s[..i] + seq(n, _ => STAR) + s[i + n..]
  {
    hide StarredOut;
    forall k | 0 <= k < |s| && out[k] != s[k]
      ensures i <= k < i + n && StarsAt(out, i, n)
    {
      ChangedThere(phrases, s, out, i, n, k);
    }
    var q :| 0 <= q < |phrases| && |phrases[q]| == n && FoldsAt(phrases[q], s, i);
    if forall k | i <= k < i + n :: out[k] == s[k] {
      StillThere(phrases[q], s, out, i);
      assert false;
    }
    assert StarsAt(out, i, n);
    assert forall k | 0 <= k < |s| :: out[k] == if i <= k < i + n then STAR else s[k];
  }

  lemma StillThere(p: Bytes, s: Bytes, out: Bytes, i: int)
    requires FoldsAt(p, s, i) && |out| == |s| && forall k | i <= k < i + |p| :: out[k] == s[k]
    ensures Survives(p, out)
  {
    assert FoldsAt(p, out, i);
  }

  lemma ChangedThere(phrases: seq<Bytes>, s: Bytes, out: Bytes, i: nat, n: nat, k: int)
    requires StarredOut(phrases, s, out, k) && OnlyAt(phrases, s, i, n) && forall q | 0 <= q < |phrases| :: StarFree(phrases[q])
    ensures i <= k < i + n && StarsAt(out, i, n)
  {
    var q, j :| CoversAt(phrases, s, q, j, k) && StarsAt(out, j, |phrases[q]|);
    assert FoldsAt(phrases[q], s, j);
  }

  /** However the stream is cut: the bytes before it, as many stars as it has bytes, the bytes after it. */
  lemma OneOccurrence(phrases: seq<Bytes>, chunks: seq<Bytes>, i: nat, n: nat)
    requires OnlyAt(phrases, Concat(chunks), i, n) && forall q | 0 <= q < |phrases| :: StarFree(phrases[q])
    ensures i + n <= |Concat(chunks)|
    ensures MaskOutput(phrases, chunks) == Concat(chunks)[..i] + seq(n, _ => STAR) + Concat(chunks)[i + n..]
  {
    hide StarredFrom, NoSurvivors, MaskOutput, OnlyAt;
    OutputMasks(phrases, chunks);
    OnlyStarred(phrases, Concat(chunks), MaskOutput(phrases, chunks), i, n);
  }

  // ---------------------------------------------------------------- letters in either case

  lemma {:induction false} TriesAlike(phrases: seq<Bytes>, s: Bytes, t: Bytes, i: nat, q: nat)
    requires Twins(s, t)
    ensures Twins(TryPhrases(phrases, s, i, q), TryPhrases(phrases, t, i, q))
    decreases |phrases| - q
  {
    hide Twin, FoldsAt;
    if q < |phrases| {
      var p := phrases[q];
      FoldsAlike(p, s, t, i);
      if FoldsAt(p, s, i) {
        RangeFits(p, s, i);
        SameTwin(STAR);
        TriesAlike(phrases, StarRange(s, i, |p|), StarRange(t, i, |p|), i, q + 1);
      } else {
        TriesAlike(phrases, s, t, i, q + 1);
      }
    }
  }

  lemma RangeFits(p: Bytes, t: Bytes, i: int)
    requires FoldsAt(p, t, i)
    ensures i + |p| <= |t|
  {
  }

  lemma {:induction false} MasksAlike(phrases: seq<Bytes>, s: Bytes, t: Bytes, i: nat)
    requires Twins(s, t)
    ensures Twins(MaskFrom(phrases, s, i), MaskFrom(phrases, t, i))
    decreases |s| - i
  {
    hide Twins, TryPhrases;
    TwinsLength(s, t);
    if i < |s| {
      TriesAlike(phrases, s, t, i, 0);
      MasksAlike(phrases, TryPhrases(phrases, s, i, 0), TryPhrases(phrases, t, i, 0), i + 1);
    }
  }

  lemma {:induction false} StreamsAlike(phrases: seq<Bytes>, maxLen: nat, s: Bytes, t: Bytes, a: seq<Bytes>, b: seq<Bytes>)
    requires Twins(s, t) && TwinChunks(a, b)
    ensures Twins(Streamed(phrases, maxLen, s, a), Streamed(phrases, maxLen, t, b))
    decreases |a|
  {
    hide Twins, MaskFrom;
    if a == [] {
      MasksAlike(phrases, s, t, 0);
    } else {
      assert Twins(a[0], b[0]) && TwinChunks(a[1..], b[1..]);
      TwinsLength(a[0], b[0]);
      if a[0] == [] {
        StreamsAlike(phrases, maxLen, s, t, a[1..], b[1..]);
      } else {
        TwinsJoin(s, t, a[0], b[0]);
        MasksAlike(phrases, s + a[0], t + b[0], 0);
        var u, v := MaskFrom(phrases, s + a[0], 0), MaskFrom(phrases, t + b[0], 0);
        TwinsLength(u, v);
        var n := Leaving(maxLen, u);
        TwinsSplit(u, v, n);
        StreamsAlike(phrases, maxLen, u[n..], v[n..], a[1..], b[1..]);
        TwinsJoin(u[..n], v[..n], Streamed(phrases, maxLen, u[n..], a[1..]), Streamed(phrases, maxLen, v[n..], b[1..]));
      }
    }
  }

  /** Streams that differ in case only are starred at the same places. */
  lemma CaseBlindMask(phrases: seq<Bytes>, a: seq<Bytes>, b: seq<Bytes>)
    requires TwinChunks(a, b)
    ensures var x, y := MaskOutput(phrases, a), MaskOutput(phrases, b);
      Twins(x, y) && forall k | 0 <= k < |x| :: x[k] == STAR <==> y[k] == STAR
  {
    hide Streamed, NonEmpty, Longest, Twin;
    StreamsAlike(NonEmpty(phrases), Longest(phrases), [], [], a, b);
    var x, y := MaskOutput(phrases, a), MaskOutput(phrases, b);
    forall k | 0 <= k < |x|
      ensures x[k] == STAR <==> y[k] == STAR
    {
      LowerMeans(x[k], y[k]);
    }
  }

  // ---------------------------------------------------------------- which occurrence goes first

  lemma StarredHead(p: Bytes, s: Bytes, i: nat)
    requires p != [] && StarFree(p) && i < |s| && s[i] == STAR
    ensures !FoldsAt(p, s, i)
  {
    assert p[0] != STAR && s[i + 0] == STAR;
  }

  /** At an offset the first phrase of the list that matches is starred, and no other. */
  lemma {:induction false} FirstPhraseStarred(phrases: seq<Bytes>, t: Bytes, i: nat, from: nat, q: nat)
    requires from <= q < |phrases| && FoldsAt(phrases[q], t, i) && forall r | from <= r < q :: !FoldsAt(phrases[r], t, i)
    requires NonEmptyPhrases(phrases) && forall r | 0 <= r < |phrases| :: StarFree(phrases[r])
    ensures i + |phrases[q]| <= |t| && TryPhrases(phrases, t, i, from) == StarRange(t, i, |phrases[q]|)
    decreases q - from
  {
    if from < q {
      FirstPhraseStarred(phrases, t, i, from + 1, q);
    } else {
      var s := StarRange(t, i, |phrases[q]|);
      forall r | q < r < |phrases|
        ensures !FoldsAt(phrases[r], s, i)
      {
        StarredHead(phrases[r], s, i);
      }
      NoneTried(phrases, s, i, q + 1);
    }
  }

  /** Masking goes from left to right: the leftmost occurrence, of the first phrase that has one there, is starred, and the rest after it. */
  lemma {:induction false} LeftmostFirst(phrases: seq<Bytes>, t: Bytes, from: nat, i: nat, q: nat)
    requires from <= i < |t| && q < |phrases| && FoldsAt(phrases[q], t, i) && forall r | 0 <= r < q :: !FoldsAt(phrases[r], t, i)
    requires forall r, j | 0 <= r < |phrases| && from <= j < i :: !FoldsAt(phrases[r], t, j)
    requires NonEmptyPhrases(phrases) && forall r | 0 <= r < |phrases| :: StarFree(phrases[r])
    ensures i + |phrases[q]| <= |t| && MaskFrom(phrases, t, from) == MaskFrom(phrases, StarRange(t, i, |phrases[q]|), i + 1)
    decreases i - from
  {
    if from < i {
      NoneTried(phrases, t, from, 0);
      LeftmostFirst(phrases, t, from + 1, i, q);
    } else {
      FirstPhraseStarred(phrases, t, i, 0, q);
    }
  }
}
