/** The pool of idle upstream connections: what acquire, release and closeIdle do to its lists. */
module UpstreamPools {

  import opened Options

  type Conn = nat

  datatype Key = Key(scheme: string, address: string, serverName: string, alpn: string, specID: string)

  datatype Pooled = Pooled(conn: Conn, lastUsed: int)

  type Idle = map<Key, seq<Pooled>>

  function ListOf(idle: Idle, key: Key): seq<Pooled>
  {
    if key in idle then idle[key] else []
  }

  /** What is left of a list after popping from its end up to the first usable entry, that entry, and the entries closed. */
  datatype Popped = Popped(rest: seq<Pooled>, taken: Option<Pooled>, closed: seq<Pooled>)

  function PopFresh(list: seq<Pooled>, now: int, timeout: int): (r: Popped)
    ensures r.taken.Some? ==> now - r.taken.value.lastUsed <= timeout
  {
    if list == [] then Popped([], None, [])
    else
      var front, last := list[..|list| - 1], list[|list| - 1];
      if now - last.lastUsed <= timeout then Popped(front, Some(last), [])
      else
        var p := PopFresh(front, now, timeout);
        Popped(p.rest, p.taken, p.closed + [last])
  }

  function Pieces(p: Popped): seq<Pooled>
  {
    p.rest + (if p.taken.Some? then [p.taken.value] else []) + p.closed
  }

  /** Popping loses nothing: the list is the rest, the entry taken and the entries closed, in order. */
  lemma {:induction false} PopConserves(list: seq<Pooled>, now: int, timeout: int)
    ensures Pieces(PopFresh(list, now, timeout)) == list
    ensures PopFresh(list, now, timeout).taken.None? ==> PopFresh(list, now, timeout).rest == []
  {
    if list != [] {
      var front, last := list[..|list| - 1], list[|list| - 1];
      assert list == front + [last];
      PopConserves(front, now, timeout);
    }
  }

  ghost predicate Ordered(list: seq<Pooled>)
  {
    forall i, j | 0 <= i < j < |list| :: list[i].lastUsed <= list[j].lastUsed
  }

  /** In last-used order the answer is the most recently used connection, or none and all are closed. */
  lemma {:induction false} PopTakesNewest(list: seq<Pooled>, now: int, timeout: int)
    requires Ordered(list)
    ensures var p := PopFresh(list, now, timeout);
      if list != [] && now - list[|list| - 1].lastUsed <= timeout
      then p == Popped(list[..|list| - 1], Some(list[|list| - 1]), [])
      else p == Popped([], None, list)
  {
    if list != [] && now - list[|list| - 1].lastUsed > timeout {
      assert forall i | 0 <= i < |list| :: list[i].lastUsed <= list[|list| - 1].lastUsed;
      AllExpired(list, now, timeout);
    }
  }

  lemma {:induction false} AllExpired(list: seq<Pooled>, now: int, timeout: int)
    requires forall i | 0 <= i < |list| :: now - list[i].lastUsed > timeout
    ensures PopFresh(list, now, timeout) == Popped([], None, list)
  {
    if list != [] {
      var front, last := list[..|list| - 1], list[|list| - 1];
      assert list == front + [last];
      AllExpired(front, now, timeout);
    }
  }

  function SetList(idle: Idle, key: Key, list: seq<Pooled>): Idle
  {
    if list == [] then idle - {key} else idle[key := list]
  }

  /** The list after a connection is put back, and the entry evicted to make room. */
  function PushBounded(list: seq<Pooled>, p: Pooled, max: nat): (r: (seq<Pooled>, Option<Pooled>))
    requires max > 0
  {
    if |list| >= max then (list[1..] + [p], Some(list[0])) else (list + [p], None)
  }

  /** What is put back is what is taken next, while it is fresh; below it the others keep their places. */
  lemma PushThenPop(list: seq<Pooled>, p: Pooled, max: nat, now: int, timeout: int)
    requires max > 0 && now - p.lastUsed <= timeout
    ensures var r := PushBounded(list, p, max); var next := PopFresh(r.0, now, timeout);
      next.taken == Some(p) && next.closed == [] && (if r.1.Some? then [r.1.value] else []) + next.rest == list
  {
    var r := PushBounded(list, p, max);
    assert r.0[..|r.0| - 1] == if |list| >= max then list[1..] else list;
  }

  /** Never more than the maximum are kept, and the one given up for that is the one used longest ago. */
  lemma PushKeepsNewest(list: seq<Pooled>, p: Pooled, max: nat)
    requires max > 0 && |list| <= max && Ordered(list + [p])
    ensures var r := PushBounded(list, p, max);
      && |r.0| <= max && (r.1.Some? <==> |list| == max)
      && (r.1.Some? ==> forall i | 0 <= i < |r.0| :: r.1.value.lastUsed <= r.0[i].lastUsed)
  {
    var r, all := PushBounded(list, p, max), list + [p];
    if r.1.Some? {
      assert forall i | 0 <= i < |r.0| :: r.0[i] == all[i + 1];
      assert all[0] == list[0];
    }
  }

  class UpstreamPool {
    var idle: Idle
    const maxIdlePerHost: nat
    const idleTimeout: int
    ghost var closed: set<Conn>  // connections the pool has closed

    constructor (max: nat, timeout: int)
      requires max > 0
      ensures idle == map[] && closed == {} && maxIdlePerHost == max && idleTimeout == timeout
    {
      idle, closed := map[], {};
      maxIdlePerHost, idleTimeout := max, timeout;
    }

    method Close(p: Pooled)
      modifies this`closed
      ensures closed == old(closed) + {p.conn}
    {
      closed := closed + {p.conn};
    }

    /** takeIdle: the loop pops exactly as PopFresh, closes exactly the expired entries, touches no other key. */
    method TakeIdle(key: Key, now: int) returns (taken: Option<Pooled>)
      modifies this
      ensures var p := PopFresh(ListOf(old(idle), key), now, idleTimeout);
        && taken == p.taken
        && idle == SetList(old(idle), key, if p.taken.Some? then p.rest else [])
        && closed == old(closed) + ConnsOf(p.closed)
    {
      hide ConnsOf;
      ConnsNone();
      var list := ListOf(idle, key);
      ghost var all := list;
      ghost var dropped: seq<Pooled> := [];
      while |list| > 0
        invariant idle == old(idle) && closed == old(closed) + ConnsOf(dropped)
        invariant var p := PopFresh(list, now, idleTimeout);
          PopFresh(all, now, idleTimeout) == Popped(p.rest, p.taken, p.closed + dropped)
      {
        var last := |list| - 1;
        var pooled := list[last];
        ghost var before := list;
        list := list[..last];
        if now - pooled.lastUsed <= idleTimeout {
          assert PopFresh(all, now, idleTimeout).closed == dropped;
          if |list| == 0 {
            idle := idle - {key};
          } else {
            idle := idle[key := list];
          }
          return Some(pooled);
        }
        Close(pooled);
        ghost var p := PopFresh(list, now, idleTimeout);
        assert PopFresh(before, now, idleTimeout) == Popped(p.rest, p.taken, p.closed + [pooled]);
        ConnsAppend([pooled], dropped);
        ConnsOne(pooled);
        dropped := [pooled] + dropped;
      }
      assert PopFresh(all, now, idleTimeout).closed == dropped;
      idle := idle - {key};
      return None;
    }

    /** release: a reusable connection with a drained reader goes to the end of its list; anything else is closed. */
    method Release(key: Key, conn: Conn, reusable: bool, drained: bool, now: int)
      requires maxIdlePerHost > 0
      modifies this
      ensures !(reusable && drained) ==> idle == old(idle) && closed == old(closed) + {conn}
      ensures reusable && drained ==>
        var r := PushBounded(ListOf(old(idle), key), Pooled(conn, now), maxIdlePerHost);
        && idle == old(idle)[key := r.0]
        && closed == old(closed) + (if r.1.Some? then {r.1.value.conn} else {})
    {
      if !reusable || !drained {
        Close(Pooled(conn, now));
        return;
      }
      var list := ListOf(idle, key);
      if |list| >= maxIdlePerHost {
        Close(list[0]);
        list := list[1..];
      }
      idle := idle[key := list + [Pooled(conn, now)]];
    }

    method CloseAll(conns: seq<Pooled>)
      modifies this`closed
      ensures closed == old(closed) + ConnsOf(conns)
    {
      for i := 0 to |conns|
        invariant closed == old(closed) + ConnsOf(conns[..i])
      {
        Close(conns[i]);
      }
    }

    method CloseKey(key: Key)
      requires key in idle
      modifies this
      ensures idle == old(idle) - {key}
      ensures closed == old(closed) + ConnsOf(old(idle)[key])
    {
      CloseAll(idle[key]);
      idle := idle - {key};
    }

    /** closeIdle: every pooled connection of every key is closed and nothing stays idle. */
    method CloseIdle()
      modifies this
      ensures idle == map[]
      ensures closed == old(closed) + ConnsUnder(old(idle), old(idle).Keys)
    {
      hide ConnsOf, ConnsUnder, Drained;
      ghost var before, closedBefore, gone: set<Key> := idle, closed, {};
      ConnsUnderNone(before);
      NoneDropped(before);
      while |idle| > 0
        invariant Drained(before, gone, idle)
        invariant closed == closedBefore + ConnsUnder(before, gone)
        decreases |idle|
      {
        var key :| key in idle;
        DropKey(before, gone, idle, key);
        ConnsUnderGrows(before, gone, key);
        CloseKey(key);
        gone := gone + {key};
      }
      AllDropped(before, gone, idle);
    }
  }

  ghost predicate Drained(before: Idle, gone: set<Key>, idle: Idle)
  {
    gone <= before.Keys && idle == before - gone
  }

  lemma NoneDropped(idle: Idle)
    ensures Drained(idle, {}, idle)
  {
  }

  lemma DropKey(before: Idle, gone: set<Key>, idle: Idle, key: Key)
    requires Drained(before, gone, idle) && key in idle
    ensures key in before && idle[key] == before[key]
    ensures Drained(before, gone + {key}, idle - {key}) && |idle - {key}| < |idle|
  {
  }

  lemma AllDropped(before: Idle, gone: set<Key>, idle: Idle)
    requires Drained(before, gone, idle) && |idle| == 0
    ensures idle == map[] && gone == before.Keys
  {
  }

  ghost function ConnsOf(list: seq<Pooled>): set<Conn>
  {
    set i | 0 <= i < |list| :: list[i].conn
  }

  ghost function ConnsUnder(idle: Idle, keys: set<Key>): set<Conn>
  {
    set k, i | k in idle && k in keys && 0 <= i < |idle[k]| :: idle[k][i].conn
  }

  lemma ConnsAppend(a: seq<Pooled>, b: seq<Pooled>)
    ensures ConnsOf(a + b) == ConnsOf(a) + ConnsOf(b)
  {
    var s := a + b;
    forall c | c in ConnsOf(a) ensures c in ConnsOf(s) {
      var i :| 0 <= i < |a| && a[i].conn == c;
      assert s[i].conn == c;
    }
    forall c | c in ConnsOf(b) ensures c in ConnsOf(s) {
      var i :| 0 <= i < |b| && b[i].conn == c;
      assert s[|a| + i].conn == c;
    }
  }

  lemma ConnsNone()
    ensures ConnsOf([]) == {}
  {
  }

  lemma ConnsUnderNone(idle: Idle)
    ensures ConnsUnder(idle, {}) == {}
  {
  }

  lemma ConnsOne(p: Pooled)
    ensures ConnsOf([p]) == {p.conn}
  {
    assert [p][0].conn in ConnsOf([p]);
  }

  lemma ConnsUnderGrows(idle: Idle, keys: set<Key>, key: Key)
    requires key in idle
    ensures ConnsUnder(idle, keys + {key}) == ConnsUnder(idle, keys) + ConnsOf(idle[key])
  {
  }
}
