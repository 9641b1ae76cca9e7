/**
 The two hand-written LRUs: a doubly linked list rewired in place plus an index map. Both refine a
 sequence of entries with distinct keys, most recently used first.
 */
module Lru {

  import opened Options

  datatype Entry<V> = Entry(key: string, value: V)

  // ---------------------------------------------------------------- the recency sequence

  ghost predicate DistinctKeys<V>(es: seq<Entry<V>>)
  {
    forall i, j | 0 <= i < j < |es| :: es[i].key != es[j].key
  }

  /** The position of a key, or the length if it is absent. */
  function Find<V>(es: seq<Entry<V>>, key: string): (i: nat)
    ensures i <= |es| && (i < |es| ==> es[i].key == key)
    ensures forall j | 0 <= j < i :: es[j].key != key
  {
    if es == [] || es[0].key == key then 0 else 1 + Find(es[1..], key)
  }

  function Lookup<V>(es: seq<Entry<V>>, key: string): Option<V>
  {
    var i := Find(es, key);
    if i < |es| then Some(es[i].value) else None
  }

  function Drop<T>(s: seq<T>, i: nat): (r: seq<T>)
    requires i < |s|
    ensures |r| == |s| - 1
  {
    s[..i] + s[i + 1..]
  }

  function AfterRemove<V>(es: seq<Entry<V>>, key: string): seq<Entry<V>>
  {
    var i := Find(es, key);
    if i < |es| then Drop(es, i) else es
  }

  /** A hit moves to the front. */
  function AfterGet<V>(es: seq<Entry<V>>, key: string): seq<Entry<V>>
  {
    var i := Find(es, key);
    if i < |es| then [es[i]] + Drop(es, i) else es
  }

  /** A put is most recent; a new key beyond capacity costs the least recently used entry. */
  function AfterPut<V>(es: seq<Entry<V>>, key: string, v: V, cap: nat): seq<Entry<V>>
  {
    var r := [Entry(key, v)] + AfterRemove(es, key);
    if Find(es, key) == |es| && |r| > cap then r[..|r| - 1] else r
  }

  lemma FindUnique<V>(es: seq<Entry<V>>, i: nat)
    requires DistinctKeys(es) && i < |es|
    ensures Find(es, es[i].key) == i
  {
  }

  lemma LookupCons<V>(e: Entry<V>, es: seq<Entry<V>>, k: string)
    ensures Lookup([e] + es, k) == if e.key == k then Some(e.value) else Lookup(es, k)
  {
  }

  lemma DropShape<V>(es: seq<Entry<V>>, i: nat)
    requires DistinctKeys(es) && i < |es|
    ensures DistinctKeys(Drop(es, i))
    ensures forall j | 0 <= j < |es| - 1 :: Drop(es, i)[j] == es[if j < i then j else j + 1]
    ensures Find(Drop(es, i), es[i].key) == |es| - 1
  {
    hide Find;
  }

  lemma DropLookup<V>(es: seq<Entry<V>>, i: nat, k: string)
    requires DistinctKeys(es) && i < |es| && k != es[i].key
    ensures Lookup(Drop(es, i), k) == Lookup(es, k)
  {
    hide Find;
    DropShape(es, i);
    var r, at := Drop(es, i), Find(es, k);
    if at < |es| {
      FindUnique(r, if at < i then at else at - 1);
    }
  }

  /** Removing a key removes it and nothing else. */
  lemma RemoveOnlyKey<V>(es: seq<Entry<V>>, key: string, k: string)
    requires DistinctKeys(es)
    ensures DistinctKeys(AfterRemove(es, key)) && Lookup(AfterRemove(es, key), key) == None
    ensures k != key ==> Lookup(AfterRemove(es, key), k) == Lookup(es, k)
  {
    hide Find, Drop;
    var i := Find(es, key);
    if i < |es| {
      DropShape(es, i);
      if k != key {
        DropLookup(es, i, k);
      }
    }
  }

  /** No operation repeats a key or outgrows the capacity. */
  lemma OperationsKeepShape<V>(es: seq<Entry<V>>, key: string, v: V, cap: nat)
    requires DistinctKeys(es) && |es| <= cap && cap >= 1
    ensures DistinctKeys(AfterGet(es, key)) && |AfterGet(es, key)| == |es|
    ensures DistinctKeys(AfterPut(es, key, v, cap)) && |AfterPut(es, key, v, cap)| <= cap
    ensures DistinctKeys(AfterRemove(es, key)) && |AfterRemove(es, key)| <= cap
  {
    hide Find;
    RemoveOnlyKey(es, key, key);
    var i := Find(es, key);
    if i < |es| {
      FrontFresh(es[i], AfterRemove(es, key));
    }
  }

  lemma FrontFresh<V>(e: Entry<V>, es: seq<Entry<V>>)
    requires DistinctKeys(es) && Lookup(es, e.key) == None
    ensures DistinctKeys([e] + es)
  {
  }

  /** A put is found, every other key keeps its value, and the only one lost is the least recently used. */
  lemma PutEvictsOldest<V>(es: seq<Entry<V>>, key: string, v: V, cap: nat, k: string)
    requires DistinctKeys(es) && |es| <= cap && cap >= 1
    ensures Lookup(AfterPut(es, key, v, cap), key) == Some(v)
    ensures k != key ==>
      Lookup(AfterPut(es, key, v, cap), k) == if Find(es, key) == |es| == cap && k == es[cap - 1].key then None else Lookup(es, k)
  {
    hide Find, Drop, Lookup;
    RemoveOnlyKey(es, key, k);
    var e, r := Entry(key, v), AfterRemove(es, key);
    LookupCons(e, r, key);
    LookupCons(e, r, k);
    if Find(es, key) == |es| == cap {
      var front := es[..cap - 1];
      assert ([e] + es)[..cap] == [e] + front;
      LookupCons(e, front, key);
      LookupCons(e, front, k);
      CutLast(es, k);
    }
  }

  lemma {:induction false} CutLast<V>(es: seq<Entry<V>>, k: string)
    requires DistinctKeys(es) && es != []
    ensures Lookup(es[..|es| - 1], k) == if k == es[|es| - 1].key then None else Lookup(es, k)
  {
  }

  /** A hit changes neither what is stored nor how much, only the order: the key becomes the last to be evicted. */
  lemma TouchOnlyReorders<V>(es: seq<Entry<V>>, key: string, k: string)
    requires DistinctKeys(es)
    ensures Lookup(AfterGet(es, key), k) == Lookup(es, k) && |AfterGet(es, key)| == |es|
    ensures Find(es, key) < |es| ==> AfterGet(es, key)[0].key == key
  {
    hide Find, Drop;
    RemoveOnlyKey(es, key, k);
    var i := Find(es, key);
    if i < |es| {
      LookupCons(es[i], AfterRemove(es, key), k);
    }
  }

  // ---------------------------------------------------------------- the law: time stamps

  datatype Op<V> = Get(key: string) | Put(key: string, value: V) | Remove(key: string) | GetOrCreate(key: string, created: V)

  /** What a cache holds, each key with the time of the last operation that hit or stored it. */
  type Stamps<V> = map<string, (V, nat)>

  /** No key was used longer ago. */
  ghost predicate Earliest<V>(m: Stamps<V>, k: string)
  {
    k in m && forall j | j in m :: m[k].1 <= m[j].1
  }

  /** The key is stored at time t; if that makes one too many, a key that no other was used before is lost. */
  ghost predicate Stores<V>(m: Stamps<V>, cap: nat, t: nat, key: string, v: V, m': Stamps<V>)
  {
    if key in m || |m| < cap then m' == m[key := (v, t)]
    else exists lost :: Earliest(m, lost) && m' == (m - {lost})[key := (v, t)]
  }

  /** What each operation does, at time t: a hit is a use, a miss is nothing. */
  ghost predicate Steps<V>(m: Stamps<V>, cap: nat, t: nat, op: Op<V>, m': Stamps<V>)
  {
    match op
    case Get(key) => m' == if key in m then m[key := (m[key].0, t)] else m
    case Put(key, v) => Stores(m, cap, t, key, v, m')
    case Remove(key) => m' == m - {key}
    case GetOrCreate(key, created) => if key in m then m' == m[key := (m[key].0, t)] else Stores(m, cap, t, key, created, m')
  }

  /** The operations, one after the other from an empty cache, lead to m. */
  ghost predicate Leads<V(!new)>(ops: seq<Op<V>>, cap: nat, m: Stamps<V>)
  {
    if ops == [] then m == map[]
    else
      exists before {:trigger Leads(ops[..|ops| - 1], cap, before)} ::
        Leads(ops[..|ops| - 1], cap, before) && Steps(before, cap, |ops| - 1, ops[|ops| - 1], m)
  }

  /** The sequence holds what m holds, in strictly descending order of last use. */
  ghost predicate Ranked<V>(es: seq<Entry<V>>, m: Stamps<V>, t: nat)
  {
    && (forall i | 0 <= i < |es| :: Stamped(es[i], m, t))
    && (forall k | k in m :: exists i :: 0 <= i < |es| && es[i].key == k)
    && (forall i, j | 0 <= i < j < |es| :: Fresher(es[i], es[j], m))
  }

  ghost predicate Stamped<V>(e: Entry<V>, m: Stamps<V>, t: nat)
  {
    e.key in m && m[e.key].0 == e.value && m[e.key].1 < t
  }

  /** One was used after the other. */
  ghost predicate Fresher<V>(e: Entry<V>, f: Entry<V>, m: Stamps<V>)
  {
    e.key in m && f.key in m && m[e.key].1 > m[f.key].1
  }

  lemma RankedFind<V>(es: seq<Entry<V>>, m: Stamps<V>, t: nat, key: string)
    requires Ranked(es, m, t)
    ensures DistinctKeys(es) && (key in m <==> Find(es, key) < |es|)
  {
  }

  lemma {:induction false} RankedCount<V>(es: seq<Entry<V>>, m: Stamps<V>, t: nat)
    requires Ranked(es, m, t)
    ensures |es| == |m|
    decreases |es|
  {
    if es == [] {
      assert m == map[];
    } else {
      var n := |es| - 1;
      RankedDrop(es, n, m, t);
      assert Drop(es, n) == es[..n];
      RankedCount(es[..n], m - {es[n].key}, t);
      assert m.Keys == (m - {es[n].key}).Keys + {es[n].key};
      assert |m.Keys| == |m| && |(m - {es[n].key}).Keys| == |m - {es[n].key}|;
    }
  }

  lemma RankedDrop<V>(es: seq<Entry<V>>, i: nat, m: Stamps<V>, t: nat)
    requires Ranked(es, m, t) && i < |es|
    ensures Ranked(Drop(es, i), m - {es[i].key}, t) && es[i].key !in m - {es[i].key}
  {
    hide Drop, Stamped, Fresher;
    var r, m', gone := Drop(es, i), m - {es[i].key}, es[i].key;
    DropAt(es, i);
    forall j | 0 <= j < |es| && j != i
      ensures es[j].key != gone
    {
      DifferentKeys(es[j], es[i], m);
    }
    forall j | 0 <= j < |r|
      ensures Stamped(r[j], m', t)
    {
      WithoutKey(if j < i then es[j] else es[j + 1], m, t, gone);
    }
    forall j, k | 0 <= j < k < |r|
      ensures Fresher(r[j], r[k], m')
    {
      var a, b := if j < i then j else j + 1, if k < i then k else k + 1;
      FresherWithout(es[a], es[b], m, gone);
    }
    forall k | k in m'
      ensures exists j :: 0 <= j < |r| && r[j].key == k
    {
      var j :| 0 <= j < |es| && es[j].key == k;
      assert r[if j < i then j else j - 1] == es[j];
    }
  }

  lemma DifferentKeys<V>(e: Entry<V>, f: Entry<V>, m: Stamps<V>)
    requires Fresher(e, f, m) || Fresher(f, e, m)
    ensures e.key != f.key
  {
  }

  lemma WithoutKey<V>(e: Entry<V>, m: Stamps<V>, t: nat, key: string)
    requires Stamped(e, m, t) && e.key != key
    ensures Stamped(e, m - {key}, t)
  {
  }

  lemma FresherWithout<V>(e: Entry<V>, f: Entry<V>, m: Stamps<V>, key: string)
    requires Fresher(e, f, m) && e.key != key && f.key != key
    ensures Fresher(e, f, m - {key})
  {
  }

  lemma DropAt<T>(s: seq<T>, i: nat)
    requires i < |s|
    ensures forall j | 0 <= j < |s| - 1 :: Drop(s, i)[j] == s[if j < i then j else j + 1]
  {
  }

  lemma RankedFront<V>(e: Entry<V>, es: seq<Entry<V>>, m: Stamps<V>, t: nat)
    requires Ranked(es, m, t) && e.key !in m
    ensures Ranked([e] + es, m[e.key := (e.value, t)], t + 1)
  {
    hide Stamped, Fresher;
    var r, m' := [e] + es, m[e.key := (e.value, t)];
    forall j | 0 <= j < |r|
      ensures Stamped(r[j], m', t + 1) && (j > 0 ==> Fresher(e, r[j], m'))
    {
      if j > 0 {
        StampedWith(e, es[j - 1], m, t);
      } else {
        StampedNow(e, m, t);
      }
    }
    forall i, j | 0 <= i < j < |r|
      ensures Fresher(r[i], r[j], m')
    {
      if i > 0 {
        FresherWith(e, es[i - 1], es[j - 1], m, t);
      }
    }
    forall k | k in m'
      ensures exists j :: 0 <= j < |r| && r[j].key == k
    {
      if k == e.key {
        assert r[0].key == k;
      } else {
        var j :| 0 <= j < |es| && es[j].key == k;
        assert r[j + 1] == es[j];
      }
    }
  }

  lemma StampedNow<V>(e: Entry<V>, m: Stamps<V>, t: nat)
    ensures Stamped(e, m[e.key := (e.value, t)], t + 1)
  {
  }

  lemma StampedWith<V>(e: Entry<V>, f: Entry<V>, m: Stamps<V>, t: nat)
    requires Stamped(f, m, t) && e.key !in m
    ensures var m' := m[e.key := (e.value, t)]; Stamped(f, m', t + 1) && Fresher(e, f, m')
  {
  }

  lemma FresherWith<V>(e: Entry<V>, f: Entry<V>, g: Entry<V>, m: Stamps<V>, t: nat)
    requires Fresher(f, g, m) && e.key !in m
    ensures Fresher(f, g, m[e.key := (e.value, t)])
  {
  }

  /** A hit or an overwritten value: the entry goes out of its place and to the front. */
  lemma RankedTouch<V>(es: seq<Entry<V>>, m: Stamps<V>, t: nat, key: string, v: V)
    requires Ranked(es, m, t) && key in m
    ensures var i := Find(es, key); i < |es| && Ranked([Entry(key, v)] + Drop(es, i), m[key := (v, t)], t + 1)
  {
    hide Find, Ranked, Drop;
    RankedFind(es, m, t, key);
    var i := Find(es, key);
    RankedDrop(es, i, m, t);
    RankedFront(Entry(key, v), Drop(es, i), m - {key}, t);
    assert (m - {key})[key := (v, t)] == m[key := (v, t)];
  }

  lemma RankedLater<V>(es: seq<Entry<V>>, m: Stamps<V>, t: nat)
    requires Ranked(es, m, t)
    ensures Ranked(es, m, t + 1)
  {
  }

  /** The key used longest ago is the last one. */
  lemma EarliestIsLast<V>(es: seq<Entry<V>>, m: Stamps<V>, t: nat, k: string)
    requires Ranked(es, m, t) && Earliest(m, k)
    ensures es != [] && es[|es| - 1].key == k
  {
    var i :| 0 <= i < |es| && es[i].key == k;
    assert es[|es| - 1].key in m;
  }

  lemma LastIsEarliest<V>(es: seq<Entry<V>>, m: Stamps<V>, t: nat)
    requires Ranked(es, m, t) && es != []
    ensures Earliest(m, es[|es| - 1].key)
  {
    var last := es[|es| - 1].key;
    forall k | k in m
      ensures m[last].1 <= m[k].1
    {
      var i :| 0 <= i < |es| && es[i].key == k;
    }
  }

  lemma RankedStore<V>(es: seq<Entry<V>>, m: Stamps<V>, cap: nat, t: nat, key: string, v: V, m': Stamps<V>)
    requires Ranked(es, m, t) && |es| <= cap && cap >= 1 && Stores(m, cap, t, key, v, m')
    ensures Ranked(AfterPut(es, key, v, cap), m', t + 1) && |AfterPut(es, key, v, cap)| <= cap
  {
    hide Find, Ranked, Earliest;
    RankedFind(es, m, t, key);
    RankedCount(es, m, t);
    var e := Entry(key, v);
    if key in m {
      RankedTouch(es, m, t, key, v);
    } else if |m| < cap {
      RankedFront(e, es, m, t);
    } else {
      var lost :| Earliest(m, lost) && m' == (m - {lost})[key := (v, t)];
      EarliestIsLast(es, m, t, lost);
      var n := |es| - 1;
      RankedDrop(es, n, m, t);
      assert Drop(es, n) == es[..n];
      RankedFront(e, es[..n], m - {lost}, t);
      assert ([e] + es)[..n + 1] == [e] + es[..n];
    }
  }

  /** The sequence after an operation. */
  function AfterOp<V>(es: seq<Entry<V>>, op: Op<V>, cap: nat): seq<Entry<V>>
  {
    match op
    case Get(key) => AfterGet(es, key)
    case Put(key, v) => AfterPut(es, key, v, cap)
    case Remove(key) => AfterRemove(es, key)
    case GetOrCreate(key, created) => if Lookup(es, key).Some? then AfterGet(es, key) else AfterPut(es, key, created, cap)
  }

  /** Every operation keeps the sequence in order of last use, whichever way the law lets it step. */
  lemma StepRanked<V>(es: seq<Entry<V>>, m: Stamps<V>, cap: nat, t: nat, op: Op<V>, m': Stamps<V>)
    requires Ranked(es, m, t) && |es| <= cap && cap >= 1 && Steps(m, cap, t, op, m')
    ensures Ranked(AfterOp(es, op, cap), m', t + 1) && |AfterOp(es, op, cap)| <= cap
  {
    hide Find, Ranked, Stores, AfterPut;
    var key := op.key;
    RankedFind(es, m, t, key);
    RankedLater(es, m, t);
    if !op.Remove? && !op.Put? && key in m {
      RankedHit(es, m, t, key);
    } else if op.Put? {
      RankedStore(es, m, cap, t, key, op.value, m');
    } else if op.GetOrCreate? {
      RankedStore(es, m, cap, t, key, op.created, m');
    } else if op.Remove? {
      RankedRemove(es, m, t, key);
    }
  }

  lemma RankedHit<V>(es: seq<Entry<V>>, m: Stamps<V>, t: nat, key: string)
    requires Ranked(es, m, t) && key in m
    ensures Ranked(AfterGet(es, key), m[key := (m[key].0, t)], t + 1) && |AfterGet(es, key)| == |es|
    ensures Lookup(es, key) == Some(m[key].0)
  {
    hide Find;
    RankedFind(es, m, t, key);
    var i := Find(es, key);
    assert es[i] == Entry(key, m[key].0);
    RankedTouch(es, m, t, key, m[key].0);
  }

  lemma RankedRemove<V>(es: seq<Entry<V>>, m: Stamps<V>, t: nat, key: string)
    requires Ranked(es, m, t)
    ensures Ranked(AfterRemove(es, key), m - {key}, t + 1) && |AfterRemove(es, key)| <= |es|
  {
    hide Find, Ranked, Drop;
    RankedFind(es, m, t, key);
    var i := Find(es, key);
    if i < |es| {
      RankedDrop(es, i, m, t);
      RankedLater(Drop(es, i), m - {key}, t);
    } else {
      assert m - {key} == m;
      RankedLater(es, m, t);
    }
  }

  /** There is always a way to step: on a full cache the last key of the sequence may be the one lost. */
  lemma StepExists<V>(es: seq<Entry<V>>, m: Stamps<V>, cap: nat, t: nat, op: Op<V>) returns (m': Stamps<V>)
    requires Ranked(es, m, t) && cap >= 1
    ensures Steps(m, cap, t, op, m')
  {
    hide Ranked, Earliest;
    RankedCount(es, m, t);
    var key := op.key;
    if op.Remove? {
      m' := m - {key};
    } else if (op.Get? || op.GetOrCreate?) && key in m {
      m' := m[key := (m[key].0, t)];
    } else if op.Get? {
      m' := m;
    } else {
      var v := if op.Put? then op.value else op.created;
      if key in m || |m| < cap {
        m' := m[key := (v, t)];
      } else {
        LastIsEarliest(es, m, t);
        m' := (m - {es[|es| - 1].key})[key := (v, t)];
      }
    }
  }

  // ---------------------------------------------------------------- the linked list

  class Node<V> {
    var prev: Node?<V>
    var next: Node?<V>
    const key: string
    var value: V

    constructor (key: string, value: V)
      ensures this.key == key && this.value == value
    {
      this.key, this.value, prev, next := key, value, null, null;
    }
  }

  ghost predicate Distinct<T>(s: seq<T>)
  {
    forall i, j | 0 <= i < j < |s| :: s[i] != s[j]
  }

  ghost predicate Linked<V>(nodes: seq<Node<V>>)
    reads nodes`prev, nodes`next
  {
    && (forall i {:trigger nodes[i].prev} | 0 <= i < |nodes| :: nodes[i].prev == if i == 0 then null else nodes[i - 1])
    && (forall i {:trigger nodes[i].next} | 0 <= i < |nodes| :: nodes[i].next == if i == |nodes| - 1 then null else nodes[i + 1])
  }

  /** The links pass over the k-th node. */
  ghost predicate LinkedAround<V>(nodes: seq<Node<V>>, k: nat)
    requires k < |nodes|
    reads nodes`prev, nodes`next
  {
    && (forall i {:trigger nodes[i].prev} | 0 <= i < |nodes| && i != k ::
          var p := if i == k + 1 then k - 1 else i - 1; nodes[i].prev == if p < 0 then null else nodes[p])
    && (forall i {:trigger nodes[i].next} | 0 <= i < |nodes| && i != k ::
          var q := if i == k - 1 then k + 1 else i + 1; nodes[i].next == if q >= |nodes| then null else nodes[q])
  }

  lemma DropLinked<V>(nodes: seq<Node<V>>, k: nat)
    requires k < |nodes| && Distinct(nodes) && LinkedAround(nodes, k)
    ensures Linked(Drop(nodes, k)) && Distinct(Drop(nodes, k))
    ensures forall n | n in Drop(nodes, k) :: n in nodes
  {
    DropAt(nodes, k);
  }

  class RecencyList<V> {
    var head: Node?<V>
    var tail: Node?<V>
    ghost var nodes: seq<Node<V>>

    /** Forward and backward links spell the same sequence of nodes. */
    ghost predicate Valid()
      reads this, nodes`prev, nodes`next
    {
      && Distinct(nodes)
      && head == (if nodes == [] then null else nodes[0])
      && tail == (if nodes == [] then null else nodes[|nodes| - 1])
      && Linked(nodes)
    }

    lemma Shape()
      requires Valid()
      ensures Distinct(nodes) && (nodes != [] ==> tail == nodes[|nodes| - 1])
    {
    }

    constructor ()
      ensures Valid() && nodes == []
    {
      head, tail, nodes := null, null, [];
    }

    method PushFront(n: Node<V>)
      requires Valid() && n !in nodes
      modifies this, n`prev, n`next, nodes`prev
      ensures Valid() && nodes == [n] + old(nodes)
    {
      n.prev := null;
      n.next := head;
      if head != null {
        head.prev := n;
      }
      head := n;
      if tail == null {
        tail := n;
      }
      nodes := [n] + nodes;
    }

    method Unlink(n: Node<V>, ghost k: nat)
      requires Valid() && k < |nodes| && nodes[k] == n
      modifies this, nodes`prev, nodes`next
      ensures Valid() && nodes == Drop(old(nodes), k)
    {
      assert n.prev == (if k == 0 then null else nodes[k - 1]) && n.next == (if k == |nodes| - 1 then null else nodes[k + 1]);
      if n.prev != null {
        n.prev.next := n.next;
      } else {
        head := n.next;
      }
      if n.next != null {
        n.next.prev := n.prev;
      } else {
        tail := n.prev;
      }
      n.prev, n.next := null, null;
      assert LinkedAround(nodes, k);
      DropLinked(nodes, k);
      nodes := Drop(nodes, k);
    }

    method MoveFront(n: Node<V>, ghost k: nat)
      requires Valid() && k < |nodes| && nodes[k] == n
      modifies this, nodes`prev, nodes`next
      ensures Valid() && nodes == [n] + Drop(old(nodes), k)
    {
      if head == n {
        return;
      }
      Unlink(n, k);
      PushFront(n);
    }
  }

  // ---------------------------------------------------------------- list and index together

  ghost function EntriesOf<V>(nodes: seq<Node<V>>): (r: seq<Entry<V>>)
    reads nodes
    ensures |r| == |nodes| && forall i | 0 <= i < |nodes| :: r[i] == Entry(nodes[i].key, nodes[i].value)
  {
    seq(|nodes|, i requires 0 <= i < |nodes| reads nodes => Entry(nodes[i].key, nodes[i].value))
  }

  /** The index maps each key to the one node that carries it. */
  ghost predicate Indexed<V>(nodes: seq<Node<V>>, idx: map<string, Node<V>>)
  {
    && (forall i | 0 <= i < |nodes| :: nodes[i].key in idx && idx[nodes[i].key] == nodes[i])
    && (forall k | k in idx :: idx[k] in nodes && idx[k].key == k)
  }

  lemma {:induction false} IndexedCount<V>(nodes: seq<Node<V>>, idx: map<string, Node<V>>)
    requires Distinct(nodes) && Indexed(nodes, idx)
    ensures |idx| == |nodes|
  {
    if nodes == [] {
    } else {
      var last := nodes[|nodes| - 1];
      var front, rest := nodes[..|nodes| - 1], idx - {last.key};
      IndexedCount(front, rest);
    }
  }

  /** lruCache and ipRateLimiter are this one structure: get, put and remove are the former's, getOrCreate and reset the latter's. */
  class LruTable<V> {
    const cap: nat
    const ll: RecencyList<V>
    var idx: map<string, Node<V>>

    ghost predicate Valid()
      reads this, ll, ll.nodes
    {
      ll.Valid() && Indexed(ll.nodes, idx)
    }

    ghost function Entries(): seq<Entry<V>>
      reads this, ll, ll.nodes
    {
      EntriesOf(ll.nodes)
    }

    constructor (cap: nat)
      ensures Valid() && Entries() == [] && this.cap == cap && fresh(ll) && ll.nodes == []
    {
      this.cap := cap;
      ll := new RecencyList<V>();
      idx := map[];
    }

    /** Where the index says the key's node is in the list. */
    lemma Locate(key: string) returns (k: nat)
      requires Valid()
      ensures k == Find(Entries(), key) && (key in idx <==> k < |ll.nodes|)
      ensures key in idx ==> ll.nodes[k] == idx[key]
    {
      k := Find(Entries(), key);
      if key in idx {
        var j :| 0 <= j < |ll.nodes| && ll.nodes[j] == idx[key];
      }
    }

    method MoveToFront(n: Node<V>, ghost k: nat)
      requires Valid() && k < |ll.nodes| && ll.nodes[k] == n
      modifies ll, ll.nodes`prev, ll.nodes`next
      ensures Valid() && Entries() == [old(Entries())[k]] + Drop(old(Entries()), k)
      ensures forall n | n in ll.nodes :: n in old(ll.nodes)
    {
      hide RecencyList.Valid, Indexed, EntriesOf, Drop;
      MoveFacts(ll.nodes, idx, k);
      EntriesDrop(ll.nodes, k);
      DropSubset(ll.nodes, k);
      ll.MoveFront(n, k);
      EntriesKept(ll.nodes);
    }

    method Unlink(n: Node<V>, ghost k: nat)
      requires Valid() && k < |ll.nodes| && ll.nodes[k] == n
      modifies this, ll, ll.nodes`prev, ll.nodes`next
      ensures Valid() && Entries() == Drop(old(Entries()), k)
      ensures forall n | n in ll.nodes :: n in old(ll.nodes)
    {
      hide RecencyList.Valid, Indexed, EntriesOf, Drop;
      ll.Shape();
      DropFacts(ll.nodes, idx, k);
      EntriesDrop(ll.nodes, k);
      DropSubset(ll.nodes, k);
      ll.Unlink(n, k);
      idx := idx - {n.key};
    }

    /** get: the stored value, and a hit becomes the most recent entry. */
    method Get(key: string) returns (v: Option<V>)
      requires Valid()
      modifies ll, ll.nodes`prev, ll.nodes`next
      ensures Valid() && v == Lookup(old(Entries()), key) && Entries() == AfterGet(old(Entries()), key)
      ensures forall n | n in ll.nodes :: n in old(ll.nodes)
    {
      hide RecencyList.Valid, Indexed, EntriesOf, Find, Drop;
      ghost var k := Locate(key);
      if key !in idx {
        return None;
      }
      MoveToFront(idx[key], k);
      return Some(idx[key].value);
    }

    /** put: the entry is most recent; a new key beyond capacity evicts the least recently used one. */
    method Put(key: string, v: V)
      requires Valid()
      modifies this, ll, ll.nodes
      ensures Valid() && Entries() == AfterPut(old(Entries()), key, v, cap)
      ensures forall n | n in ll.nodes :: n in old(ll.nodes) || fresh(n)
    {
      hide RecencyList.Valid, Indexed, EntriesOf, Find, Drop;
      ghost var k := Locate(key);
      if key in idx {
        Overwrite(key, v, k);
      } else {
        Insert(key, v);
      }
    }

    /** put on a key that is present: the value changes in place and the node moves to the front. */
    method Overwrite(key: string, v: V, ghost k: nat)
      requires Valid() && key in idx && k < |ll.nodes| && ll.nodes[k] == idx[key]
      modifies ll, ll.nodes
      ensures Valid() && Entries() == [Entry(key, v)] + Drop(old(Entries()), k)
      ensures forall n | n in ll.nodes :: n in old(ll.nodes)
    {
      hide RecencyList.Valid, Indexed, Drop;
      ll.Shape();
      KeyAt(ll.nodes, idx, key, k);
      DropMasked(Entries(), k, Entry(key, v));
      ghost var before := Entries();
      var n := idx[key];
      n.value := v;
      assert Entries() == before[k := Entry(key, v)];
      MoveToFront(n, k);
    }

    method Push(n: Node<V>)
      requires Valid() && n.key !in idx
      modifies this, ll, n`prev, n`next, ll.nodes`prev
      ensures Valid() && Entries() == [Entry(n.key, n.value)] + old(Entries())
      ensures ll.nodes == [n] + old(ll.nodes)
    {
      hide RecencyList.Valid, Indexed, EntriesOf;
      PushFacts(ll.nodes, idx, n);
      ll.PushFront(n);
      EntriesKept(old(ll.nodes));
      EntriesCons(n, old(ll.nodes));
      idx := idx[n.key := n];
    }

    /** put on a new key: the node goes in front, and the tail goes when the capacity is exceeded. */
    method Insert(key: string, v: V)
      requires Valid() && key !in idx
      modifies this, ll, ll.nodes
      ensures Valid()
      ensures var r := [Entry(key, v)] + old(Entries()); Entries() == if |r| > cap then r[..|r| - 1] else r
      ensures forall n | n in ll.nodes :: n in old(ll.nodes) || fresh(n)
    {
      hide RecencyList.Valid, Indexed, EntriesOf, LruTable.Valid, LruTable.Entries;
      var n := new Node(key, v);
      Push(n);
      Evict();
    }

    /** The tail goes when the capacity is exceeded. */
    method Evict()
      requires Valid()
      modifies this, ll, ll.nodes`prev, ll.nodes`next
      ensures Valid() && Entries() == if |old(Entries())| > cap then old(Entries())[..|old(Entries())| - 1] else old(Entries())
      ensures forall n | n in ll.nodes :: n in old(ll.nodes)
    {
      hide RecencyList.Valid, Indexed, EntriesOf;
      ll.Shape();
      IndexedCount(ll.nodes, idx);
      if |idx| > cap {
        Unlink(ll.tail, |ll.nodes| - 1);
      }
    }

    /** remove: the key is gone, all else keeps its order. */
    method Remove(key: string)
      requires Valid()
      modifies this, ll, ll.nodes`prev, ll.nodes`next
      ensures Valid() && Entries() == AfterRemove(old(Entries()), key)
      ensures forall n | n in ll.nodes :: n in old(ll.nodes)
    {
      hide RecencyList.Valid, Indexed, EntriesOf, Find;
      ghost var k := Locate(key);
      if key in idx {
        Unlink(idx[key], k);
      }
    }

    /** getOrCreate: the value already kept for the key, made most recent, or the new one, kept as by put. */
    method GetOrCreate(key: string, created: V) returns (v: V)
      requires Valid()
      modifies this, ll, ll.nodes
      ensures Valid() && v == (if Lookup(old(Entries()), key).Some? then Lookup(old(Entries()), key).value else created)
      ensures Entries() == if Lookup(old(Entries()), key).Some? then AfterGet(old(Entries()), key) else AfterPut(old(Entries()), key, created, cap)
      ensures forall n | n in ll.nodes :: n in old(ll.nodes) || fresh(n)
    {
      hide RecencyList.Valid, Indexed, EntriesOf, Find, Drop;
      ghost var k := Locate(key);
      if key in idx {
        MoveToFront(idx[key], k);
        return idx[key].value;
      }
      Insert(key, created);
      return created;
    }

    method Reset()
      modifies this, ll
      ensures Valid() && Entries() == []
    {
      ll.head, ll.tail, ll.nodes := null, null, [];
      idx := map[];
    }
  }

  /**
   Any operations from an empty table: what it holds is what the law of time stamps leads to, in strictly descending
   order of last use.
   */
  method Replay<V(!new)>(cap: nat, ops: seq<Op<V>>) returns (table: LruTable<V>, ghost m: Stamps<V>)
    requires cap >= 1
    ensures table.Valid() && Leads(ops, cap, m) && Ranked(table.Entries(), m, |ops|) && |table.Entries()| <= cap
  {
    hide Ranked, Leads, Find, AfterOp;
    table := new LruTable<V>(cap);
    m := map[];
    NothingRanked<V>(cap);
    assert ops[..0] == [];
    for i := 0 to |ops|
      invariant table.Valid() && table.cap == cap && fresh(table) && fresh(table.ll) && (forall n | n in table.ll.nodes :: fresh(n))
      invariant Leads(ops[..i], cap, m) && Ranked(table.Entries(), m, i) && |table.Entries()| <= cap
    {
      ghost var m' := Next(table.Entries(), m, cap, ops, i);
      Perform(table, ops[i]);
      m := m';
    }
    assert ops[..|ops|] == ops;
  }

  /** One operation more. */
  lemma Next<V(!new)>(es: seq<Entry<V>>, m: Stamps<V>, cap: nat, ops: seq<Op<V>>, i: nat) returns (m': Stamps<V>)
    requires i < |ops| && cap >= 1 && Leads(ops[..i], cap, m) && Ranked(es, m, i) && |es| <= cap
    ensures Leads(ops[..i + 1], cap, m') && Ranked(AfterOp(es, ops[i], cap), m', i + 1) && |AfterOp(es, ops[i], cap)| <= cap
  {
    hide Ranked, Steps, AfterOp, Leads;
    m' := StepExists(es, m, cap, i, ops[i]);
    StepRanked(es, m, cap, i, ops[i], m');
    LeadsOn(ops, cap, i, m, m');
  }

  lemma NothingRanked<V(!new)>(cap: nat)
    ensures Ranked<V>([], map[], 0) && Leads<V>([], cap, map[])
  {
  }

  lemma LeadsOn<V(!new)>(ops: seq<Op<V>>, cap: nat, i: nat, m: Stamps<V>, m': Stamps<V>)
    requires i < |ops| && Leads(ops[..i], cap, m) && Steps(m, cap, i, ops[i], m')
    ensures Leads(ops[..i + 1], cap, m')
  {
    hide Steps;
    assert ops[..i + 1][..i] == ops[..i];
  }

  method Perform<V>(table: LruTable<V>, op: Op<V>)
    requires table.Valid()
    modifies table, table.ll, table.ll.nodes
    ensures table.Valid() && table.Entries() == AfterOp(old(table.Entries()), op, table.cap)
    ensures forall n | n in table.ll.nodes :: n in old(table.ll.nodes) || fresh(n)
  {
    hide Find, AfterGet, AfterPut, AfterRemove, LruTable.Valid, LruTable.Entries;
    match op
    case Get(key) => var _ := table.Get(key);
    case Put(key, v) => table.Put(key, v);
    case Remove(key) => table.Remove(key);
    case GetOrCreate(key, created) => var _ := table.GetOrCreate(key, created);
  }

  // ---------------------------------------------------------------- what rewiring does to index and entries

  twostate lemma EntriesKept<V>(nodes: seq<Node<V>>)
    requires forall n | n in nodes :: n.value == old(n.value)
    ensures EntriesOf(nodes) == old(EntriesOf(nodes))
  {
  }

  lemma DropSubset<T>(s: seq<T>, k: nat)
    requires k < |s|
    ensures forall x | x in [s[k]] + Drop(s, k) :: x in s
    ensures forall x | x in Drop(s, k) :: x in s
  {
  }

  lemma EntriesDrop<V>(nodes: seq<Node<V>>, k: nat)
    requires k < |nodes|
    ensures EntriesOf(Drop(nodes, k)) == Drop(EntriesOf(nodes), k)
    ensures EntriesOf([nodes[k]] + Drop(nodes, k)) == [EntriesOf(nodes)[k]] + Drop(EntriesOf(nodes), k)
  {
  }

  lemma MoveFacts<V>(nodes: seq<Node<V>>, idx: map<string, Node<V>>, k: nat)
    requires Indexed(nodes, idx) && k < |nodes|
    ensures Indexed([nodes[k]] + Drop(nodes, k), idx)
  {
  }

  lemma DropFacts<V>(nodes: seq<Node<V>>, idx: map<string, Node<V>>, k: nat)
    requires Indexed(nodes, idx) && Distinct(nodes) && k < |nodes|
    ensures Indexed(Drop(nodes, k), idx - {nodes[k].key})
  {
  }

  lemma KeyAt<V>(nodes: seq<Node<V>>, idx: map<string, Node<V>>, key: string, k: nat)
    requires Indexed(nodes, idx) && key in idx && k < |nodes| && nodes[k] == idx[key]
    ensures nodes[k].key == key
  {
  }

  lemma DropMasked<T>(s: seq<T>, k: nat, x: T)
    requires k < |s|
    ensures Drop(s[k := x], k) == Drop(s, k)
  {
  }

  lemma EntriesCons<V>(n: Node<V>, nodes: seq<Node<V>>)
    ensures EntriesOf([n] + nodes) == [Entry(n.key, n.value)] + EntriesOf(nodes)
  {
  }

  lemma PushFacts<V>(nodes: seq<Node<V>>, idx: map<string, Node<V>>, n: Node<V>)
    requires Indexed(nodes, idx) && n.key !in idx
    ensures Indexed([n] + nodes, idx[n.key := n]) && n !in nodes
  {
  }
}
