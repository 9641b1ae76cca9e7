/** The banner injector: inserts a banner once, before the first closing body tag of a chunked stream. */
module Injection {

  import opened Bytes

  function Needle(): (r: Bytes)
    ensures |r| == 7
  {
    ['<' as int, '/' as int, 'b' as int, 'o' as int, 'd' as int, 'y' as int, '>' as int]
  }

  /** The first place the needle occurs, ignoring ASCII case. */
  ghost predicate First(s: Bytes, i: int)
  {
    FoldsAt(Needle(), s, i) && forall j | 0 <= j < i :: !FoldsAt(Needle(), s, j)
  }

  ghost predicate Absent(s: Bytes)
  {
    forall j :: !FoldsAt(Needle(), s, j)
  }

  /** out is s with the banner put before the first closing body tag, or s itself if it has none. */
  ghost predicate IsInjection(banner: Bytes, s: Bytes, out: Bytes)
  {
    (Absent(s) && out == s) || exists i :: First(s, i) && out == s[..i] + banner + s[i..]
  }

  lemma FoldsPrefix(p: Bytes, s: Bytes, more: Bytes, i: int)
    ensures FoldsAt(p, s, i) ==> FoldsAt(p, s + more, i)
    ensures FoldsAt(p, s + more, i) && i + |p| <= |s| ==> FoldsAt(p, s, i)
  {
  }

  lemma FoldsTail(p: Bytes, head: Bytes, tail: Bytes, i: int)
    requires i >= 0
    ensures FoldsAt(p, tail, i) <==> FoldsAt(p, head + tail, |head| + i)
  {
  }

  /** Once the tag has been seen, more input only adds to the output. */
  lemma InjectionExtends(banner: Bytes, s: Bytes, out: Bytes, i: int, more: Bytes)
    requires First(s, i) && out == s[..i] + banner + s[i..]
    ensures First(s + more, i) && out + more == (s + more)[..i] + banner + (s + more)[i..]
  {
    forall j | 0 <= j < i ensures !FoldsAt(Needle(), s + more, j) {
      FoldsPrefix(Needle(), s, more, j);
    }
  }

  /** With the last six bytes kept back, a tag can only start in what is kept. */
  lemma StartsInPending(emitted: Bytes, pending: Bytes, chunk: Bytes, j: int)
    requires Absent(emitted + pending) && (emitted == [] || |pending| >= 6)
    ensures FoldsAt(Needle(), emitted + (pending + chunk), j) ==> j >= |emitted|
  {
    FoldsPrefix(Needle(), emitted + pending, chunk, j);
  }

  /** An empty banner changes nothing wherever it goes. */
  lemma NoBanner(s: Bytes)
    ensures IsInjection([], s, s)
  {
    if j :| FoldsAt(Needle(), s, j) {
      var i := FirstOf(s, j);
      assert s == s[..i] + [] + s[i..];
    }
  }

  lemma {:induction false} FirstOf(s: Bytes, j: int) returns (i: int)
    requires FoldsAt(Needle(), s, j)
    ensures First(s, i)
    decreases j
  {
    if k :| 0 <= k < j && FoldsAt(Needle(), s, k) {
      i := FirstOf(s, k);
    } else {
      i := j;
    }
  }

  class InjectionStream {
    const banner: Bytes
    var pending: Bytes
    var injected: bool
    ghost var received: Bytes
    ghost var emitted: Bytes
    ghost var at: int  // where the banner went

    ghost predicate Valid()
      reads this
    {
      && (banner == [] ==> !injected && pending == [] && emitted == received)
      && (injected ==> pending == [] && First(received, at) && emitted == received[..at] + banner + received[at..])
      && (banner != [] && !injected ==>
            emitted + pending == received && Absent(received) && (emitted == [] || |pending| >= 6))
    }

    constructor (banner: Bytes)
      ensures Valid() && received == [] && emitted == [] && this.banner == banner
    {
      this.banner := banner;
      pending, injected, received, emitted, at := [], false, [], [], 0;
    }

    method ProcessChunk(chunk: Bytes) returns (out: Bytes)
      requires Valid()
      modifies this
      ensures Valid() && received == old(received) + chunk && emitted == old(emitted) + out
      ensures chunk == [] ==> out == [] && unchanged(this)
    {
      hide FoldsAt;
      if banner == [] || chunk == [] {
        assert chunk == [] ==> received + chunk == received && emitted + chunk == emitted;
        received, emitted := received + chunk, emitted + chunk;
        return chunk;
      }
      if injected {
        InjectionExtends(banner, received, emitted, at, chunk);
        received, emitted := received + chunk, emitted + chunk;
        return chunk;
      }
      ghost var before := pending;
      pending := pending + chunk;
      assert received + chunk == emitted + pending;
      received := received + chunk;
      forall j ensures FoldsAt(Needle(), received, j) ==> j >= |emitted| {
        StartsInPending(emitted, before, chunk, j);
      }
      var ok;
      out, ok := InjectPending();
      if ok {
        emitted := emitted + out;
        return;
      }
      var emit := |pending| - 6;
      if emit <= 0 {
        return [];
      }
      out := pending[..emit];
      assert emitted + pending == (emitted + out) + pending[emit..];
      pending := pending[emit..];
      emitted := emitted + out;
    }

    /** injectPending: at the first closing body tag in the pending bytes, if any. */
    method InjectPending() returns (out: Bytes, ok: bool)
      requires !injected && received == emitted + pending
      requires forall j :: FoldsAt(Needle(), received, j) ==> j >= |emitted|
      modifies this`pending, this`injected, this`at
      ensures ok == injected
      ensures !ok ==> pending == old(pending) && Absent(received)
      ensures ok ==> pending == [] && First(received, at) && emitted + out == received[..at] + banner + received[at..]
    {
      var i := 0;
      while i + 7 <= |pending|
        invariant 0 <= i && !injected && pending == old(pending)
        invariant forall j | 0 <= j < |emitted| + i :: !FoldsAt(Needle(), received, j)
      {
        FoldsTail(Needle(), emitted, pending, i);
        if FoldsAt(Needle(), pending, i) {
          out := pending[..i] + banner + pending[i..];
          at := |emitted| + i;
          assert emitted + out == received[..at] + banner + received[at..];
          pending, injected := [], true;
          return out, true;
        }
        i := i + 1;
      }
      return [], false;
    }

    method Flush() returns (out: Bytes)
      requires Valid()
      modifies this
      ensures received == old(received) && emitted == old(emitted) + out && pending == []
      ensures IsInjection(banner, received, emitted)
    {
      if banner == [] {
        NoBanner(received);
      }
      if pending == [] {
        assert emitted + pending == emitted;
        return [];
      }
      out := pending;
      emitted := emitted + out;
      pending := [];
    }
  }

  /** A whole stream in any chunks comes out with the banner inserted once at the right place, or unchanged. */
  method InjectAll(banner: Bytes, chunks: seq<Bytes>) returns (out: Bytes)
    ensures IsInjection(banner, Concat(chunks), out)
  {
    var stream := new InjectionStream(banner);
    out := [];
    for i := 0 to |chunks|
      invariant stream.Valid() && stream.banner == banner && stream.emitted == out && stream.received == Concat(chunks[..i])
    {
      assert chunks[..i + 1] == chunks[..i] + [chunks[i]];
      ConcatSnoc(chunks[..i], chunks[i]);
      var piece := stream.ProcessChunk(chunks[i]);
      out := out + piece;
    }
    assert chunks[..|chunks|] == chunks;
    var rest := stream.Flush();
    out := out + rest;
  }

  /** There is only one such output, so it cannot depend on the chunking. */
  lemma InjectionUnique(banner: Bytes, s: Bytes, a: Bytes, b: Bytes)
    requires IsInjection(banner, s, a) && IsInjection(banner, s, b)
    ensures a == b
  {
  }

  /** The tag, letter by letter. */
  lemma NeedleSpells()
    ensures Needle() == Ascii("</body>")
  {
  }

  /** A text in which "</body>" stands once, in either case, and no other '<' before it. */
  lemma InjectsBefore(banner: Bytes, a: Bytes, tag: Bytes, b: Bytes, out: Bytes)
    requires Twins(tag, Ascii("</body>")) && '<' as int !in a
    ensures IsInjection(banner, a + tag + b, out) <==> out == a + banner + tag + b
  {
    var s := a + tag + b;
    NeedleSpells();
    assert s[|a|..|a| + 7] == tag;
    FoldsMeans(Needle(), s, |a|);
    forall j | 0 <= j < |a|
      ensures !FoldsAt(Needle(), s, j)
    {
      assert s[j + 0] == a[j] != '<' as int && Needle()[0] == '<' as int;
    }
    assert First(s, |a|);
    assert s[..|a|] == a && s[|a|..] == tag + b;
    assert a + banner + (tag + b) == a + banner + tag + b;
  }

  /** Streams that differ in case only get the banner at the same place, or neither gets one. */
  lemma CaseBlindInjection(banner: Bytes, s: Bytes, t: Bytes, x: Bytes, y: Bytes)
    requires Twins(s, t) && IsInjection(banner, s, x) && IsInjection(banner, t, y)
    ensures (x == s && y == t) || exists i :: 0 <= i <= |s| && x == s[..i] + banner + s[i..] && y == t[..i] + banner + t[i..]
  {
    forall i
      ensures FoldsAt(Needle(), s, i) <==> FoldsAt(Needle(), t, i)
    {
      FoldsAlike(Needle(), s, t, i);
    }
    hide FoldsAt, Twin;
    if !Absent(s) {
      var i :| First(s, i) && x == s[..i] + banner + s[i..];
      assert First(t, i);
    }
  }
}
