/** The compiled phrase filter: the imperative construction of the automaton. */
module PhraseFilters {

  import opened Bytes
  import opened PhraseAutomaton

  function EmptyNode(): (r: AhoNode)
    ensures forall b: byte :: r.next[b] == 0
  {
    AhoNode(seq(256, _ => 0), 0, false, false, 0, [])
  }

  // ---------------------------------------------------------------- growing the trie

  function WithNext(v: AhoNode, b: byte, n: nat): (r: AhoNode)
  {
    AhoNode(v.next[b := n], v.fail, v.hard, v.excpt, v.score, v.phrase)
  }

  /** The table after a fresh node is hung below node n on byte b. */
  function Hang(nodes: seq<AhoNode>, n: nat, b: byte): (r: seq<AhoNode>)
    requires n < |nodes|
    ensures |r| == |nodes| + 1
  {
    nodes[n := WithNext(nodes[n], b, |nodes|)] + [EmptyNode()]
  }

  ghost predicate Shape(nodes: seq<AhoNode>, id: Index)
  {
    IsIndex(id, |nodes|) && forall s {:trigger NextRaw(id, nodes[id[s]], s)} | s in id :: NextRaw(id, nodes[id[s]], s)
  }

  ghost predicate Owned(nodes: seq<AhoNode>, id: Index, es: seq<Entry>)
  {
    && (forall s | s in id :: id[s] < |nodes|)
    && (forall s {:trigger OwnValues(es, nodes[id[s]], s)} | s in id :: OwnValues(es, nodes[id[s]], s))
  }

  lemma ChildZero(nodes: seq<AhoNode>, id: Index, s: Bytes, b: byte)
    requires IsIndex(id, |nodes|)
    ensures Child(id, s, b) == 0 <==> s + [b] !in id
  {
  }

  lemma HangIndex(id: Index, n: nat, s: Bytes, b: byte)
    requires IsIndex(id, n) && s in id && s + [b] !in id
    ensures IsIndex(id[s + [b] := n], n + 1)
  {
    var id' := id[s + [b] := n];
    forall t: Bytes, c: byte | t + [c] in id' ensures t in id' {
      if t + [c] == s + [b] {
        assert t == (t + [c])[..|t|] == (s + [b])[..|s|] == s;
      }
    }
  }

  lemma ChildAfterHang(id: Index, n: nat, s: Bytes, b: byte, t: Bytes, c: byte)
    requires IsIndex(id, n) && s in id && s + [b] !in id
    requires t in id || t == s + [b]
    ensures Child(id[s + [b] := n], t, c) == (if t == s && c == b then n else if t == s + [b] then 0 else Child(id, t, c))
  {
    if t + [c] == s + [b] {
      assert t == (t + [c])[..|t|] == (s + [b])[..|s|] == s;
    }
  }

  lemma HangShape(nodes: seq<AhoNode>, id: Index, s: Bytes, b: byte)
    requires Shape(nodes, id) && s in id && s + [b] !in id
    ensures Shape(Hang(nodes, id[s], b), id[s + [b] := |nodes|])
  {
    var id' := id[s + [b] := |nodes|];
    var nodes' := Hang(nodes, id[s], b);
    HangIndex(id, |nodes|, s, b);
    forall t | t in id' ensures NextRaw(id', nodes'[id'[t]], t) {
      forall c: byte ensures nodes'[id'[t]].next[c] == Child(id', t, c) {
        ChildAfterHang(id, |nodes|, s, b, t, c);
        if t != s + [b] {
          assert NextRaw(id, nodes[id[t]], t);
        }
      }
    }
  }

  lemma EmptyOwn(es: seq<Entry>, s: Bytes)
    requires !OwnAny(es, s)
    ensures OwnValues(es, EmptyNode(), s)
  {
    NotOwned(es, s);
  }

  lemma HangOwnedAt(nodes: seq<AhoNode>, id: Index, es: seq<Entry>, s: Bytes, b: byte, t: Bytes)
    requires s in id && id[s] < |nodes| && s + [b] !in id
    requires t == s + [b] ==> !OwnAny(es, t)
    requires t != s + [b] ==> t in id && id[t] < |nodes| && OwnValues(es, nodes[id[t]], t)
    ensures var id' := id[s + [b] := |nodes|];
      id'[t] <= |nodes| && OwnValues(es, Hang(nodes, id[s], b)[id'[t]], t)
  {
    if t == s + [b] {
      EmptyOwn(es, t);
    } else {
    }
  }

  lemma HangOwned(nodes: seq<AhoNode>, id: Index, es: seq<Entry>, s: Bytes, b: byte)
    requires Owned(nodes, id, es) && s in id && s + [b] !in id
    requires Covers(id.Keys, es)
    ensures Owned(Hang(nodes, id[s], b), id[s + [b] := |nodes|], es)
  {
    var id' := id[s + [b] := |nodes|];
    var nodes' := Hang(nodes, id[s], b);
    forall t | t in id' ensures OwnValues(es, nodes'[id'[t]], t) {
      HangOwnedAt(nodes, id, es, s, b, t);
    }
  }

  function WithEntry(v: AhoNode, e: Entry): (r: AhoNode)
  {
    AhoNode(v.next, v.fail, v.hard || e.hard, v.excpt || e.exception, Wrap32(v.score + Wrap32(e.score)),
            if e.hard || e.score > 0 || e.exception then e.text else v.phrase)
  }

  /** The table after the last node of an added phrase has taken the phrase's flags. */
  function Mark(nodes: seq<AhoNode>, n: nat, e: Entry): (r: seq<AhoNode>)
    requires n < |nodes|
    ensures |r| == |nodes|
  {
    nodes[n := WithEntry(nodes[n], e)]
  }

  lemma OwnSnoc(es: seq<Entry>, e: Entry, s: Bytes)
    requires s != []
    ensures OwnHard(es + [e], s) <==> OwnHard(es, s) || (e.hard && e.text == s)
    ensures OwnExcept(es + [e], s) <==> OwnExcept(es, s) || (e.exception && e.text == s)
    ensures OwnAny(es + [e], s) <==> OwnAny(es, s) || e.text == s
    ensures OwnScore(es + [e], s) == OwnScore(es, s) + (if e.text == s then e.score else 0)
  {
    var fs := es + [e];
    assert fs[..|fs| - 1] == es;
    assert fs[|es|] == e;
  }

  lemma {:induction false} OwnRoot(es: seq<Entry>)
    ensures OwnScore(es, []) == 0
  {
    if es != [] {
      OwnRoot(es[..|es| - 1]);
    }
  }

  lemma MarkOwned(nodes: seq<AhoNode>, id: Index, es: seq<Entry>, e: Entry)
    requires IsIndex(id, |nodes|) && Owned(nodes, id, es)
    requires e.text in id && e.text != []
    requires e.hard || e.score > 0 || e.exception
    ensures Owned(Mark(nodes, id[e.text], e), id, es + [e])
  {
    var nodes' := Mark(nodes, id[e.text], e);
    forall s | s in id ensures OwnValues(es + [e], nodes'[id[s]], s) {
      assert OwnValues(es, nodes[id[s]], s);
      if s == [] {
        OwnRoot(es);
      } else {
        OwnSnoc(es, e, s);
        WrapAdd(OwnScore(es, s), e.score);
      }
    }
  }

  lemma SkipOwned(nodes: seq<AhoNode>, id: Index, es: seq<Entry>, e: Entry)
    requires IsIndex(id, |nodes|) && Owned(nodes, id, es) && e.text == []
    ensures Owned(nodes, id, es + [e])
  {
    forall s | s in id ensures OwnValues(es + [e], nodes[id[s]], s) {
      assert OwnValues(es, nodes[id[s]], s);
      if s == [] {
        OwnRoot(es);
        OwnRoot(es + [e]);
      } else {
        OwnSnoc(es, e, s);
      }
    }
  }

  /** The index while a phrase is being added: its first bytes p are in already. */
  ghost predicate KeysGrow(id: Index, es: seq<Entry>, p: Bytes)
  {
    forall s {:trigger PrefixOfSome(es, s)} :: s in id <==> PrefixOfSome(es, s) || s <= p
  }

  lemma KeysHang(id: Index, es: seq<Entry>, p: Bytes, b: byte, n: nat)
    requires KeysGrow(id, es, p)
    ensures p + [b] !in id ==> KeysGrow(id[p + [b] := n], es, p + [b])
    ensures p + [b] in id ==> KeysGrow(id, es, p + [b])
  {
    var id' := if p + [b] in id then id else id[p + [b] := n];
    forall s ensures s in id' <==> PrefixOfSome(es, s) || s <= p + [b] {
      PrefixSnoc(s, p, b);
      assert s in id <==> PrefixOfSome(es, s) || s <= p;
    }
  }

  lemma PrefixSnoc(s: Bytes, p: Bytes, b: byte)
    ensures s <= p + [b] <==> s <= p || s == p + [b]
  {
  }

  lemma KeysSnoc(id: Index, es: seq<Entry>, e: Entry)
    requires KeysGrow(id, es, e.text)
    ensures KeysOf(id, es + [e])
  {
    var fs := es + [e];
    assert fs[|es|] == e;
    assert forall i | 0 <= i < |es| :: fs[i] == es[i];
    forall s ensures s in id <==> PrefixOfSome(fs, s) {
      if PrefixOfSome(es, s) && s != [] {
        var i :| 0 <= i < |es| && s <= es[i].text;
      }
    }
  }

  lemma MarkShape(nodes: seq<AhoNode>, id: Index, e: Entry)
    requires Shape(nodes, id) && e.text in id
    ensures Shape(Mark(nodes, id[e.text], e), id)
  {
    var nodes' := Mark(nodes, id[e.text], e);
    forall s | s in id ensures NextRaw(id, nodes'[id[s]], s) {
      assert NextRaw(id, nodes[id[s]], s);
    }
  }

  // ---------------------------------------------------------------- breadth-first completion

  ghost predicate FailDone(id: Index, node: AhoNode, s: Bytes)
    requires [] in id
  {
    s != [] && node.fail == id[LongestSuffix(id.Keys, s[1..])]
  }

  /** Transitions below byte b are completed, the rest are still the trie's. */
  ghost predicate NextPartial(id: Index, node: AhoNode, s: Bytes, b: int)
    requires [] in id
  {
    forall c: byte :: node.next[c] == if c < b then id[LongestSuffix(id.Keys, s + [c])] else Child(id, s, c)
  }

  /** Rows in done are complete, cur's row is complete below b, all others are the trie's. */
  ghost predicate Rows(nodes: seq<AhoNode>, id: Index, done: set<Bytes>, cur: Bytes, b: int)
    requires IsIndex(id, |nodes|) && done <= id.Keys
  {
    && (forall s {:trigger NextDone(id, nodes[id[s]], s)} | s in done :: NextDone(id, nodes[id[s]], s))
    && (forall s {:trigger NextRaw(id, nodes[id[s]], s)} | s in id && s !in done && s != cur :: NextRaw(id, nodes[id[s]], s))
    && (cur in id ==> NextPartial(id, nodes[id[cur]], cur, b))
  }

  /** Seen nodes have their fail link and final values, all others only their own values. */
  ghost predicate Values(nodes: seq<AhoNode>, id: Index, es: seq<Entry>, seen: set<Bytes>)
    requires IsIndex(id, |nodes|) && seen <= id.Keys
  {
    && (forall s {:trigger FullValues(es, nodes[id[s]], s)} | s in seen :: FullValues(es, nodes[id[s]], s))
    && (forall s {:trigger FailDone(id, nodes[id[s]], s)} | s in seen && s != [] :: FailDone(id, nodes[id[s]], s))
    && (forall s {:trigger OwnValues(es, nodes[id[s]], s)} | s in id && s !in seen :: OwnValues(es, nodes[id[s]], s))
  }

  ghost predicate Bfs(nodes: seq<AhoNode>, id: Index, es: seq<Entry>, done: set<Bytes>, seen: set<Bytes>, cur: Bytes, b: int)
  {
    && IsIndex(id, |nodes|) && KeysOf(id, es)
    && done <= id.Keys && seen <= id.Keys && [] in seen && cur !in done
    && Rows(nodes, id, done, cur, b)
    && Values(nodes, id, es, seen)
    && (forall s: Bytes, c: byte {:trigger s + [c]} | s + [c] in id :: s + [c] in seen <==> s in done || (s == cur && c < b))
  }

  /** The queue lists the seen nodes below the root, shorter ones first; the first head of them are done. */
  ghost predicate Queue(id: Index, queue: seq<nat>, qs: seq<Bytes>, head: nat, done: set<Bytes>, seen: set<Bytes>)
  {
    && |queue| == |qs| && head <= |qs|
    && (forall i | 0 <= i < |qs| :: qs[i] in id && qs[i] != [] && queue[i] == id[qs[i]])
    && (forall i, j | 0 <= i < j < |qs| :: |qs[i]| <= |qs[j]| && qs[i] != qs[j])
    && (forall s :: s in seen <==> s == [] || s in qs)
    && (forall s :: s in done <==> s == [] || s in qs[..head])
    && (forall i | 0 <= i < |qs| && head < |qs| :: |qs[i]| <= |qs[head]| + 1)
  }

  ghost predicate Frontier(id: Index, done: set<Bytes>, seen: set<Bytes>)
  {
    forall s: Bytes, c: byte {:trigger s + [c]} | s + [c] in id :: s + [c] in seen <==> s in done
  }

  /** Breadth-first order: when a node is taken from the queue every shorter node is done. */
  lemma {:induction false} ShorterDone(id: Index, queue: seq<nat>, qs: seq<Bytes>, head: nat, done: set<Bytes>, seen: set<Bytes>, s: Bytes)
    requires Queue(id, queue, qs, head, done, seen) && Frontier(id, done, seen) && PrefixClosed(id.Keys)
    requires s in id && (head < |qs| ==> |s| < |qs[head]|)
    ensures s in done
    decreases |s|
  {
    if s != [] {
      var p, c := s[..|s| - 1], s[|s| - 1];
      SplitLast(s);
      ShorterDone(id, queue, qs, head, done, seen, p);
      var j :| 0 <= j < |qs| && qs[j] == s;
    }
  }

  /** Every shorter node is done and every node no longer than cur is seen. */
  ghost predicate Ready(id: Index, done: set<Bytes>, seen: set<Bytes>, cur: Bytes)
  {
    && (forall s | s in id && |s| < |cur| :: s in done)
    && (forall s | s in id && |s| <= |cur| :: s in seen)
  }

  lemma HeadReady(id: Index, queue: seq<nat>, qs: seq<Bytes>, head: nat, done: set<Bytes>, seen: set<Bytes>)
    requires Queue(id, queue, qs, head, done, seen) && Frontier(id, done, seen) && PrefixClosed(id.Keys)
    requires head < |qs|
    ensures Ready(id, done, seen, qs[head])
  {
    forall s | s in id && |s| < |qs[head]| ensures s in done {
      ShorterDone(id, queue, qs, head, done, seen, s);
    }
    forall s | s in id && |s| <= |qs[head]| ensures s in seen {
      if s != [] {
        var p, c := s[..|s| - 1], s[|s| - 1];
        SplitLast(s);
      }
    }
  }

  lemma {:induction false} FailStep(P: set<Bytes>, cur: Bytes, b: byte)
    requires PrefixClosed(P) && cur != []
    ensures LongestSuffix(P, LongestSuffix(P, cur[1..]) + [b]) == LongestSuffix(P, (cur + [b])[1..])
    ensures cur + [b] !in P ==> LongestSuffix(P, cur + [b]) == LongestSuffix(P, (cur + [b])[1..])
  {
    assert (cur + [b])[1..] == cur[1..] + [b];
    LongestSuffixStep(P, cur[1..], b);
  }

  lemma PartialFill(id: Index, node: AhoNode, s: Bytes, b: byte, v: nat)
    requires [] in id && NextPartial(id, node, s, b) && v == id[LongestSuffix(id.Keys, s + [b])]
    ensures NextPartial(id, WithNext(node, b, v), s, b + 1)
  {
  }

  lemma FillRows(nodes: seq<AhoNode>, id: Index, done: set<Bytes>, cur: Bytes, b: byte, v: nat)
    requires IsIndex(id, |nodes|) && done <= id.Keys && cur in id && cur !in done
    requires Rows(nodes, id, done, cur, b) && v == id[LongestSuffix(id.Keys, cur + [b])]
    ensures Rows(nodes[id[cur] := WithNext(nodes[id[cur]], b, v)], id, done, cur, b + 1)
  {
    var nodes' := nodes[id[cur] := WithNext(nodes[id[cur]], b, v)];
    PartialFill(id, nodes[id[cur]], cur, b, v);
    forall s | s in done ensures NextDone(id, nodes'[id[s]], s) {
    }
  }

  lemma FillValues(nodes: seq<AhoNode>, id: Index, es: seq<Entry>, seen: set<Bytes>, cur: Bytes, b: byte, v: nat)
    requires IsIndex(id, |nodes|) && seen <= id.Keys && cur in id
    requires Values(nodes, id, es, seen)
    ensures Values(nodes[id[cur] := WithNext(nodes[id[cur]], b, v)], id, es, seen)
  {
    hide HardAt, ExceptAt, AnyAt, ScoreAt, OwnHard, OwnExcept, OwnAny, OwnScore, IsSuffix, LongestSuffix;
    var nodes' := nodes[id[cur] := WithNext(nodes[id[cur]], b, v)];
    forall s | s in seen ensures FullValues(es, nodes'[id[s]], s) {
      assert FullValues(es, nodes[id[s]], s);
    }
    forall s | s in seen && s != [] ensures FailDone(id, nodes'[id[s]], s) {
      assert FailDone(id, nodes[id[s]], s);
    }
    forall s | s in id && s !in seen ensures OwnValues(es, nodes'[id[s]], s) {
      assert OwnValues(es, nodes[id[s]], s);
    }
  }

  /** An absent transition takes over the fail target's, which is already complete. */
  lemma FillStep(nodes: seq<AhoNode>, id: Index, es: seq<Entry>, done: set<Bytes>, seen: set<Bytes>, cur: Bytes, b: byte, v: nat)
    requires Bfs(nodes, id, es, done, seen, cur, b)
    requires cur in id && cur + [b] !in id && v == id[LongestSuffix(id.Keys, cur + [b])]
    ensures Bfs(nodes[id[cur] := WithNext(nodes[id[cur]], b, v)], id, es, done, seen, cur, b + 1)
  {
    FillRows(nodes, id, done, cur, b, v);
    FillValues(nodes, id, es, seen, cur, b, v);
  }

  lemma SeeRows(nodes: seq<AhoNode>, id: Index, done: set<Bytes>, cur: Bytes, b: byte, w: AhoNode)
    requires IsIndex(id, |nodes|) && done <= id.Keys && cur in id && cur !in done && cur + [b] in id
    requires Rows(nodes, id, done, cur, b) && w.next == nodes[id[cur + [b]]].next
    ensures Rows(nodes[id[cur + [b]] := w], id, done, cur, b + 1)
  {
    hide NextDone, NextRaw;
    var nodes' := nodes[id[cur + [b]] := w];
    forall s | s in done ensures NextDone(id, nodes'[id[s]], s) {
      SameNext(id, nodes[id[s]], nodes'[id[s]], s);
    }
    forall s | s in id && s !in done && s != cur ensures NextRaw(id, nodes'[id[s]], s) {
      SameNext(id, nodes[id[s]], nodes'[id[s]], s);
    }
  }

  lemma SameNext(id: Index, v: AhoNode, w: AhoNode, s: Bytes)
    requires [] in id && v.next == w.next
    ensures NextDone(id, v, s) == NextDone(id, w, s) && NextRaw(id, v, s) == NextRaw(id, w, s)
  {
  }

  lemma SeeValues(nodes: seq<AhoNode>, id: Index, es: seq<Entry>, seen: set<Bytes>, t: Bytes, w: AhoNode)
    requires IsIndex(id, |nodes|) && seen <= id.Keys && t in id && t != []
    requires Values(nodes, id, es, seen)
    requires FullValues(es, w, t) && FailDone(id, w, t)
    ensures Values(nodes[id[t] := w], id, es, seen + {t})
  {
    hide FullValues, OwnValues, FailDone;
    var nodes' := nodes[id[t] := w];
    var seen' := seen + {t};
    forall s | s in seen' ensures FullValues(es, nodes'[id[s]], s) {
      if s != t {
      }
    }
  }

  /** A present child gets its fail link and final values, and joins the seen nodes. */
  lemma SeeStep(nodes: seq<AhoNode>, id: Index, es: seq<Entry>, done: set<Bytes>, seen: set<Bytes>, cur: Bytes, b: byte, w: AhoNode)
    requires Bfs(nodes, id, es, done, seen, cur, b)
    requires cur in id && cur + [b] in id && w.next == nodes[id[cur + [b]]].next
    requires FullValues(es, w, cur + [b]) && FailDone(id, w, cur + [b])
    ensures Bfs(nodes[id[cur + [b]] := w], id, es, done, seen + {cur + [b]}, cur, b + 1)
  {
    hide Rows, Values, KeysOf, FullValues, FailDone;
    assert IsIndex(id, |nodes|) && Rows(nodes, id, done, cur, b) && Values(nodes, id, es, seen);
    SeeRows(nodes, id, done, cur, b, w);
    SeeValues(nodes, id, es, seen, cur + [b], w);
    SeeFrontier(id, done, seen, cur, b);
  }

  lemma SeeFrontier(id: Index, done: set<Bytes>, seen: set<Bytes>, cur: Bytes, b: byte)
    requires forall s: Bytes, c: byte {:trigger s + [c]} | s + [c] in id :: s + [c] in seen <==> s in done || (s == cur && c < b)
    ensures forall s: Bytes, c: byte {:trigger s + [c]} | s + [c] in id ::
      s + [c] in seen + {cur + [b]} <==> s in done || (s == cur && c < b + 1)
  {
    forall s: Bytes, c: byte {:trigger s + [c]} | s + [c] in id
      ensures s + [c] in seen + {cur + [b]} <==> s in done || (s == cur && c < b + 1)
    {
      SnocInjective(s, c, cur, b);
    }
  }

  /** Between two nodes of the queue: no row is half done. */
  ghost predicate Idle(nodes: seq<AhoNode>, id: Index, es: seq<Entry>, done: set<Bytes>, seen: set<Bytes>)
  {
    && IsIndex(id, |nodes|) && KeysOf(id, es)
    && done <= id.Keys && seen <= id.Keys && [] in seen
    && (forall s {:trigger NextDone(id, nodes[id[s]], s)} | s in done :: NextDone(id, nodes[id[s]], s))
    && (forall s {:trigger NextRaw(id, nodes[id[s]], s)} | s in id && s !in done :: NextRaw(id, nodes[id[s]], s))
    && Values(nodes, id, es, seen)
    && Frontier(id, done, seen)
  }

  lemma OpenRow(nodes: seq<AhoNode>, id: Index, es: seq<Entry>, done: set<Bytes>, seen: set<Bytes>, cur: Bytes)
    requires Idle(nodes, id, es, done, seen) && cur in id && cur !in done
    ensures Bfs(nodes, id, es, done, seen, cur, 0)
  {
    assert NextRaw(id, nodes[id[cur]], cur);
  }

  lemma CloseRow(nodes: seq<AhoNode>, id: Index, es: seq<Entry>, done: set<Bytes>, seen: set<Bytes>, cur: Bytes)
    requires Bfs(nodes, id, es, done, seen, cur, 256) && cur in id
    ensures Idle(nodes, id, es, done + {cur}, seen)
  {
    assert NextDone(id, nodes[id[cur]], cur);
  }

  /** Nothing left in the queue: every row is complete and every value final. */
  lemma AllDone(nodes: seq<AhoNode>, id: Index, es: seq<Entry>, queue: seq<nat>, qs: seq<Bytes>, done: set<Bytes>, seen: set<Bytes>)
    requires Outer(nodes, id, es, queue, qs, |qs|, done, seen)
    ensures IsAutomaton(nodes, id, es)
  {
    forall s | s in id ensures s in done && s in seen {
      ShorterDone(id, queue, qs, |qs|, done, seen, s);
    }
  }

  /** The child node after it has inherited from its fail target f. */
  function WithFail(v: AhoNode, fail: nat, f: AhoNode): (r: AhoNode)
  {
    AhoNode(v.next, fail, v.hard || f.hard, v.excpt || f.excpt, Wrap32(v.score + f.score),
            if v.phrase == [] then f.phrase else v.phrase)
  }

  lemma InheritPhrase(v: AhoNode, t: Bytes, f: AhoNode, u: Bytes, own: bool, inherited: bool)
    requires t != [] && IsSuffix(u, t[1..])
    requires PhraseGood(own, v, t) && PhraseGood(inherited, f, u)
    ensures PhraseGood(own || inherited, WithFail(v, 0, f), t)
  {
  }

  lemma InheritNode(P: set<Bytes>, es: seq<Entry>, v: AhoNode, t: Bytes, f: AhoNode, fail: nat)
    requires Covers(P, es) && t != []
    requires OwnValues(es, v, t) && FullValues(es, f, LongestSuffix(P, t[1..]))
    ensures FullValues(es, WithFail(v, fail, f), t)
  {
    hide HardAt, ExceptAt, AnyAt, ScoreAt, OwnHard, OwnExcept, OwnAny, OwnScore;
    var u := LongestSuffix(P, t[1..]);
    Inherit(P, es, t);
    WrapAdd(OwnScore(es, t), ScoreAt(es, u));
    InheritPhrase(v, t, f, u, OwnAny(es, t), AnyAt(es, u));
  }

  function WithRootFail(v: AhoNode): (r: AhoNode)
  {
    AhoNode(v.next, 0, v.hard, v.excpt, v.score, v.phrase)
  }

  /** Below the root there is nothing to inherit. */
  lemma RootChild(id: Index, es: seq<Entry>, v: AhoNode, b: byte)
    requires [] in id && KeysOf(id, es) && OwnValues(es, v, [b])
    ensures FullValues(es, WithRootFail(v), [b])
  {
    TrieCovers(id, es);
    Inherit(id.Keys, es, [b]);
    RootIsSilent(es);
    assert LongestSuffix(id.Keys, [b][1..]) == [];
  }

  lemma RootFull(es: seq<Entry>, v: AhoNode)
    requires OwnValues(es, v, [])
    ensures FullValues(es, v, [])
  {
    RootIsSilent(es);
    OwnRoot(es);
  }

  /**
   While cur's row is completed, its fail target is done: that row's entry for b is where cur
   must go on b, and equally where the child on b must fail to, and the node there is final.
   */
  lemma FailTarget(nodes: seq<AhoNode>, id: Index, es: seq<Entry>, done: set<Bytes>, seen0: set<Bytes>, seen: set<Bytes>, cur: Bytes, b: byte)
    requires Bfs(nodes, id, es, done, seen, cur, b) && cur in id && cur != []
    requires Ready(id, done, seen0, cur) && seen0 <= seen
    ensures nodes[id[cur]].fail < |nodes|
    ensures nodes[nodes[id[cur]].fail].next[b] == id[LongestSuffix(id.Keys, (cur + [b])[1..])]
    ensures cur + [b] !in id ==> LongestSuffix(id.Keys, cur + [b]) == LongestSuffix(id.Keys, (cur + [b])[1..])
    ensures var u := LongestSuffix(id.Keys, (cur + [b])[1..]); id[u] < |nodes| && FullValues(es, nodes[id[u]], u)
    ensures cur + [b] in id ==> cur + [b] !in seen && OwnValues(es, nodes[id[cur + [b]]], cur + [b])
  {
    var f := LongestSuffix(id.Keys, cur[1..]);
    assert FailDone(id, nodes[id[cur]], cur);
    assert NextDone(id, nodes[id[f]], f);
    FailStep(id.Keys, cur, b);
  }

  lemma QueuePush(id: Index, queue: seq<nat>, qs: seq<Bytes>, head: nat, done: set<Bytes>, seen: set<Bytes>, t: Bytes)
    requires Queue(id, queue, qs, head, done, seen)
    requires t in id && t != [] && t !in seen
    requires forall i | 0 <= i < |qs| :: |qs[i]| <= |t|
    requires head < |qs| ==> |t| <= |qs[head]| + 1
    ensures Queue(id, queue + [id[t]], qs + [t], head, done, seen + {t})
  {
    var qs' := qs + [t];
    assert qs'[..head] == qs[..head];
  }

  lemma QueueAdvance(id: Index, queue: seq<nat>, qs: seq<Bytes>, head: nat, done: set<Bytes>, seen: set<Bytes>)
    requires Queue(id, queue, qs, head, done, seen) && head < |qs|
    ensures Queue(id, queue, qs, head + 1, done + {qs[head]}, seen)
  {
  }

  /** The state of the first loop at byte b. */
  ghost predicate Seeding(nodes: seq<AhoNode>, id: Index, es: seq<Entry>, queue: seq<nat>, qs: seq<Bytes>, seen: set<Bytes>, b: int)
  {
    && Bfs(nodes, id, es, {}, seen, [], b)
    && Queue(id, queue, qs, 0, {[]}, seen)
    && forall i | 0 <= i < |qs| :: |qs[i]| == 1
  }

  lemma SeedStart(nodes: seq<AhoNode>, id: Index, es: seq<Entry>)
    requires IsTrie(nodes, id, es)
    ensures Seeding(nodes, id, es, [], [], {[]}, 0)
  {
    RootFull(es, nodes[id[[]]]);
    assert NextRaw(id, nodes[id[[]]], []);
  }

  lemma SeedByte(nodes: seq<AhoNode>, id: Index, es: seq<Entry>, queue: seq<nat>, qs: seq<Bytes>, seen: set<Bytes>, b: byte)
    requires Seeding(nodes, id, es, queue, qs, seen, b)
    ensures var child := nodes[0].next[b];
      child < |nodes| &&
      if child == 0 then Seeding(nodes, id, es, queue, qs, seen, b + 1)
      else Seeding(nodes[child := WithRootFail(nodes[child])], id, es, queue + [child], qs + [[b]], seen + {[b]}, b + 1)
  {
    hide Values, FullValues, OwnValues, FailDone, Queue, KeysOf;
    assert [] + [b] == [b];
    var child := nodes[0].next[b];
    SeedChild(nodes, id, es, seen, b);
    if child == 0 {
      SeedAbsent(nodes, id, es, seen, b);
    } else {
      SeeStep(nodes, id, es, {}, seen, [], b, WithRootFail(nodes[child]));
      QueuePush(id, queue, qs, 0, {[]}, seen, [b]);
    }
  }

  /** What the root's row says of byte b, and the final values of the child there. */
  lemma SeedChild(nodes: seq<AhoNode>, id: Index, es: seq<Entry>, seen: set<Bytes>, b: byte)
    requires Bfs(nodes, id, es, {}, seen, [], b)
    ensures nodes[0].next[b] == Child(id, [], b) < |nodes| && (nodes[0].next[b] == 0 <==> [b] !in id)
    ensures [b] in id ==> [b] !in seen
    ensures [b] in id ==> FullValues(es, WithRootFail(nodes[id[[b]]]), [b]) && FailDone(id, WithRootFail(nodes[id[[b]]]), [b])
  {
    hide FullValues, OwnValues, FailDone, Rows;
    assert [] + [b] == [b];
    RootRow(nodes, id, b);
    if [b] in id {
      assert OwnValues(es, nodes[id[[b]]], [b]);
      RootChild(id, es, nodes[id[[b]]], b);
      RootFailDone(id, nodes[id[[b]]], b);
    }
  }

  lemma RootRow(nodes: seq<AhoNode>, id: Index, b: byte)
    requires IsIndex(id, |nodes|) && Rows(nodes, id, {}, [], b)
    ensures nodes[0].next[b] == Child(id, [], b) < |nodes| && (nodes[0].next[b] == 0 <==> [] + [b] !in id)
  {
    hide NextRaw, NextDone;
  }

  lemma RootFailDone(id: Index, v: AhoNode, b: byte)
    requires [] in id && id[[]] == 0
    ensures FailDone(id, WithRootFail(v), [b])
  {
    assert LongestSuffix(id.Keys, [b][1..]) == [];
  }

  /** Without a child the root keeps going to itself. */
  lemma SeedAbsent(nodes: seq<AhoNode>, id: Index, es: seq<Entry>, seen: set<Bytes>, b: byte)
    requires Bfs(nodes, id, es, {}, seen, [], b) && [b] !in id
    ensures Bfs(nodes, id, es, {}, seen, [], b + 1)
  {
    hide Values;
    assert [] + [b] == [b];
  }

  /** The state of the second loop while the node at head is at byte b. */
  ghost predicate Inner(nodes: seq<AhoNode>, id: Index, es: seq<Entry>, queue: seq<nat>, qs: seq<Bytes>, head: nat,
                        done: set<Bytes>, seen: set<Bytes>, b: int)
  {
    && head < |qs|
    && Queue(id, queue, qs, head, done, seen)
    && Bfs(nodes, id, es, done, seen, qs[head], b)
    && Ready(id, done, seen, qs[head])
  }

  lemma EnterNode(nodes: seq<AhoNode>, id: Index, es: seq<Entry>, queue: seq<nat>, qs: seq<Bytes>, head: nat,
                  done: set<Bytes>, seen: set<Bytes>)
    requires Idle(nodes, id, es, done, seen) && Queue(id, queue, qs, head, done, seen) && head < |qs|
    ensures Inner(nodes, id, es, queue, qs, head, done, seen, 0)
  {
    HeadReady(id, queue, qs, head, done, seen);
    OpenRow(nodes, id, es, done, seen, qs[head]);
  }

  lemma LeaveNode(nodes: seq<AhoNode>, id: Index, es: seq<Entry>, queue: seq<nat>, qs: seq<Bytes>, head: nat,
                  done: set<Bytes>, seen: set<Bytes>)
    requires Inner(nodes, id, es, queue, qs, head, done, seen, 256)
    ensures Idle(nodes, id, es, done + {qs[head]}, seen)
    ensures Queue(id, queue, qs, head + 1, done + {qs[head]}, seen)
  {
    CloseRow(nodes, id, es, done, seen, qs[head]);
    QueueAdvance(id, queue, qs, head, done, seen);
  }

  lemma InnerAt(nodes: seq<AhoNode>, id: Index, es: seq<Entry>, queue: seq<nat>, qs: seq<Bytes>, head: nat,
                done: set<Bytes>, seen: set<Bytes>, b: byte)
    requires Inner(nodes, id, es, queue, qs, head, done, seen, b)
    ensures queue[head] < |nodes| && nodes[queue[head]].fail < |nodes|
    ensures nodes[queue[head]].next[b] < |nodes|
    ensures nodes[nodes[queue[head]].fail].next[b] < |nodes|
  {
    FailTarget(nodes, id, es, done, seen, seen, qs[head], b);
  }

  lemma AbsentByte(nodes: seq<AhoNode>, id: Index, es: seq<Entry>, queue: seq<nat>, qs: seq<Bytes>, head: nat,
                   done: set<Bytes>, seen: set<Bytes>, b: byte, node: nat, v: nat)
    requires Inner(nodes, id, es, queue, qs, head, done, seen, b)
    requires node == queue[head] < |nodes| && nodes[node].next[b] == 0
    requires nodes[node].fail < |nodes| && v == nodes[nodes[node].fail].next[b]
    ensures Inner(nodes[node := WithNext(nodes[node], b, v)], id, es, queue, qs, head, done, seen, b + 1)
  {
    FailTarget(nodes, id, es, done, seen, seen, qs[head], b);
    FillStep(nodes, id, es, done, seen, qs[head], b, v);
  }

  lemma PresentByte(nodes: seq<AhoNode>, id: Index, es: seq<Entry>, queue: seq<nat>, qs: seq<Bytes>, head: nat,
                    done: set<Bytes>, seen: set<Bytes>, b: byte, node: nat, child: nat, fail: nat)
    requires Inner(nodes, id, es, queue, qs, head, done, seen, b)
    requires node == queue[head] < |nodes| && child == nodes[node].next[b] != 0 && child < |nodes|
    requires nodes[node].fail < |nodes| && fail == nodes[nodes[node].fail].next[b] && fail < |nodes|
    ensures Inner(nodes[child := WithFail(nodes[child], fail, nodes[fail])], id, es,
                  queue + [child], qs + [qs[head] + [b]], head, done, seen + {qs[head] + [b]}, b + 1)
  {
    var cur := qs[head];
    var t := cur + [b];
    FailTarget(nodes, id, es, done, seen, seen, cur, b);
    TrieCovers(id, es);
    InheritNode(id.Keys, es, nodes[child], t, nodes[fail], fail);
    SeeStep(nodes, id, es, done, seen, cur, b, WithFail(nodes[child], fail, nodes[fail]));
    QueuePush(id, queue, qs, head, done, seen, t);
  }

  lemma {:induction false} DistinctBound(qs: seq<Bytes>, P: set<Bytes>)
    requires forall i, j | 0 <= i < j < |qs| :: qs[i] != qs[j]
    requires forall i | 0 <= i < |qs| :: qs[i] in P
    ensures |qs| <= |P|
  {
    if qs != [] {
      var front := qs[..|qs| - 1];
      DistinctBound(front, P - {qs[|qs| - 1]});
    }
  }

  /** The state of the second loop between two nodes. */
  ghost predicate Outer(nodes: seq<AhoNode>, id: Index, es: seq<Entry>, queue: seq<nat>, qs: seq<Bytes>, head: nat,
                        done: set<Bytes>, seen: set<Bytes>)
  {
    Idle(nodes, id, es, done, seen) && Queue(id, queue, qs, head, done, seen)
  }

  lemma QueueBound(id: Index, queue: seq<nat>, qs: seq<Bytes>, head: nat, done: set<Bytes>, seen: set<Bytes>)
    requires Queue(id, queue, qs, head, done, seen)
    ensures |queue| == |qs| <= |id|
  {
    DistinctBound(qs, id.Keys);
  }

  class PhraseFilter {
    var nodes: seq<AhoNode>
    var threshold: int
    ghost var id: Index
    ghost var entries: seq<Entry>

    constructor (threshold: int)
      ensures IsTrie(nodes, id, entries) && entries == [] && this.threshold == threshold
    {
      this.nodes := [EmptyNode()];
      this.threshold := threshold;
      this.id := map[[] := 0];
      this.entries := [];
      new;
      assert OwnValues([], EmptyNode(), []);
      assert forall b: byte :: [] + [b] !in id;
      assert NextRaw(id, EmptyNode(), []);
    }

    /** addPhrase: afterwards the table is the trie of one phrase more. */
    method AddPhrase(e: Entry)
      requires IsTrie(nodes, id, entries)
      requires e.hard || e.score > 0 || e.exception
      modifies this
      ensures IsTrie(nodes, id, entries)
      ensures entries == old(entries) + [e] && threshold == old(threshold)
    {
      ghost var es := entries;
      TrieCovers(id, es);
      if e.text == [] {
        SkipOwned(nodes, id, es, e);
        KeysSnoc(id, es, e);
        entries := es + [e];
        return;
      }
      var node := 0;
      var i := 0;
      while i < |e.text|
        invariant 0 <= i <= |e.text|
        invariant Shape(nodes, id) && Owned(nodes, id, es)
        invariant KeysGrow(id, es, e.text[..i])
        invariant Covers(id.Keys, es)
        invariant e.text[..i] in id && node == id[e.text[..i]]
        invariant entries == es && threshold == old(threshold)
      {
        var b := e.text[i];
        ghost var s := e.text[..i];
        assert e.text[..i + 1] == s + [b];
        assert NextRaw(id, nodes[id[s]], s);
        ChildZero(nodes, id, s, b);
        KeysHang(id, es, s, b, |nodes|);
        var next := nodes[node].next[b];
        if next == 0 {
          next := |nodes|;
          HangShape(nodes, id, s, b);
          HangOwned(nodes, id, es, s, b);
          nodes := Hang(nodes, node, b);
          id := id[s + [b] := next];
        }
        node := next;
        i := i + 1;
      }
      assert e.text[..i] == e.text;
      MarkOwned(nodes, id, es, e);
      KeysSnoc(id, es, e);
      MarkShape(nodes, id, e);
      nodes := Mark(nodes, node, e);
      entries := es + [e];
    }

    /** The first loop of buildFailures: the root's children fail to the root and are queued. */
    method SeedQueue() returns (queue: seq<nat>, ghost qs: seq<Bytes>, ghost seen: set<Bytes>)
      requires IsTrie(nodes, id, entries)
      modifies this`nodes
      ensures Outer(nodes, id, entries, queue, qs, 0, {[]}, seen)
    {
      queue, qs, seen := [], [], {[]};
      SeedStart(nodes, id, entries);
      for b := 0 to 256
        invariant Seeding(nodes, id, entries, queue, qs, seen, b)
      {
        SeedByte(nodes, id, entries, queue, qs, seen, b);
        var child := nodes[0].next[b];
        if child != 0 {
          nodes := nodes[child := WithRootFail(nodes[child])];
          queue, qs, seen := queue + [child], qs + [[b]], seen + {[b]};
        }
      }
    }

    /** The body of the second loop: one queued node completes its row and queues its children. */
    method CompleteNode(node: nat, queue: seq<nat>, ghost qs: seq<Bytes>, ghost head: nat, ghost done: set<Bytes>, ghost seen: set<Bytes>)
      returns (queue': seq<nat>, ghost qs': seq<Bytes>, ghost seen': set<Bytes>)
      requires Outer(nodes, id, entries, queue, qs, head, done, seen)
      requires head < |qs| && node == queue[head]
      modifies this`nodes
      ensures Outer(nodes, id, entries, queue', qs', head + 1, done + {qs[head]}, seen')
    {
      EnterNode(nodes, id, entries, queue, qs, head, done, seen);
      queue', qs', seen' := queue, qs, seen;
      for b := 0 to 256
        invariant Inner(nodes, id, entries, queue', qs', head, done, seen', b)
        invariant queue'[head] == node && qs'[head] == qs[head]
      {
        queue', qs', seen' := CompleteByte(b, node, queue', qs', head, done, seen');
      }
      LeaveNode(nodes, id, entries, queue', qs', head, done, seen');
    }

    method CompleteByte(b: byte, node: nat, queue: seq<nat>, ghost qs: seq<Bytes>, ghost head: nat, ghost done: set<Bytes>, ghost seen: set<Bytes>)
      returns (queue': seq<nat>, ghost qs': seq<Bytes>, ghost seen': set<Bytes>)
      requires Inner(nodes, id, entries, queue, qs, head, done, seen, b) && node == queue[head]
      modifies this`nodes
      ensures Inner(nodes, id, entries, queue', qs', head, done, seen', b + 1)
      ensures queue'[head] == node && qs'[head] == qs[head]
    {
      InnerAt(nodes, id, entries, queue, qs, head, done, seen, b);
      queue', qs', seen' := queue, qs, seen;
      var child := nodes[node].next[b];
      var fail := nodes[nodes[node].fail].next[b];
      if child == 0 {
        AbsentByte(nodes, id, entries, queue, qs, head, done, seen, b, node, fail);
        nodes := nodes[node := WithNext(nodes[node], b, fail)];
      } else {
        PresentByte(nodes, id, entries, queue, qs, head, done, seen, b, node, child, fail);
        nodes := nodes[child := WithFail(nodes[child], fail, nodes[fail])];
        queue', qs', seen' := queue + [child], qs + [qs[head] + [b]], seen + {qs[head] + [b]};
      }
    }

    /** buildFailures: the trie becomes the complete automaton of the same phrases. */
    method BuildFailures()
      requires IsTrie(nodes, id, entries)
      modifies this`nodes
      ensures IsAutomaton(nodes, id, entries)
    {
      var queue, qs, seen := SeedQueue();
      ghost var done := {[]};
      var head := 0;
      QueueBound(id, queue, qs, head, done, seen);
      while head < |queue|
        invariant head <= |queue| <= |id|
        invariant Outer(nodes, id, entries, queue, qs, head, done, seen)
        decreases |id| - head
      {
        ghost var cur := qs[head];
        queue, qs, seen := CompleteNode(queue[head], queue, qs, head, done, seen);
        done := done + {cur};
        head := head + 1;
        QueueBound(id, queue, qs, head, done, seen);
      }
      AllDone(nodes, id, entries, queue, qs, done, seen);
    }
  }

  // ---------------------------------------------------------------- construction

  function BlockedEntries(ps: seq<Bytes>): (r: seq<Entry>)
    ensures |r| == |ps| && forall i | 0 <= i < |ps| :: r[i] == Entry(ps[i], 0, true, false)
  {
    seq(|ps|, i requires 0 <= i < |ps| => Entry(ps[i], 0, true, false))
  }

  function WeightedEntries(ps: seq<(Bytes, int)>): (r: seq<Entry>)
    ensures |r| == |ps| && forall i | 0 <= i < |ps| :: r[i] == Entry(ps[i].0, ps[i].1, false, false)
  {
    seq(|ps|, i requires 0 <= i < |ps| => Entry(ps[i].0, ps[i].1, false, false))
  }

  function ExceptionEntries(ps: seq<Bytes>): (r: seq<Entry>)
    ensures |r| == |ps| && forall i | 0 <= i < |ps| :: r[i] == Entry(ps[i], 0, false, true)
  {
    seq(|ps|, i requires 0 <= i < |ps| => Entry(ps[i], 0, false, true))
  }

  /** The settings NewPhraseFilterWithExceptions rejects. */
  predicate BadSettings(weighted: seq<(Bytes, int)>, threshold: int)
  {
    threshold < 0 || (threshold == 0 && weighted != []) || exists i | 0 <= i < |weighted| :: weighted[i].1 <= 0
  }

  /** NewPhraseFilterWithExceptions: an error for bad settings, otherwise the automaton of exactly the given phrases. */
  method NewPhraseFilter(blocked: seq<Bytes>, weighted: seq<(Bytes, int)>, exceptions: seq<Bytes>, threshold: int)
    returns (filter: PhraseFilter?)
    ensures filter == null <==> BadSettings(weighted, threshold)
    ensures filter == null <==>
      threshold < 0 || (threshold == 0 && |weighted| > 0) || exists i :: 0 <= i < |weighted| && weighted[i].1 <= 0
    ensures filter != null ==>
      && fresh(filter) && filter.threshold == threshold
      && filter.entries == BlockedEntries(blocked) + WeightedEntries(weighted) + ExceptionEntries(exceptions)
      && IsAutomaton(filter.nodes, filter.id, filter.entries)
      && threshold >= 0 && forall i | 0 <= i < |filter.entries| :: filter.entries[i].score >= 0
  {
    hide IsTrie, IsAutomaton;
    if threshold < 0 {
      return null;
    }
    var f := new PhraseFilter(threshold);
    for i := 0 to |blocked|
      invariant IsTrie(f.nodes, f.id, f.entries) && f.threshold == threshold
      invariant f.entries == BlockedEntries(blocked)[..i]
    {
      f.AddPhrase(Entry(blocked[i], 0, true, false));
    }
    for i := 0 to |weighted|
      invariant IsTrie(f.nodes, f.id, f.entries) && f.threshold == threshold
      invariant f.entries == BlockedEntries(blocked) + WeightedEntries(weighted)[..i]
      invariant forall k | 0 <= k < i :: weighted[k].1 > 0
      invariant i > 0 ==> threshold != 0
    {
      if weighted[i].1 <= 0 || threshold == 0 {
        return null;
      }
      f.AddPhrase(Entry(weighted[i].0, weighted[i].1, false, false));
    }
    for i := 0 to |exceptions|
      invariant IsTrie(f.nodes, f.id, f.entries) && f.threshold == threshold
      invariant f.entries == BlockedEntries(blocked) + WeightedEntries(weighted) + ExceptionEntries(exceptions)[..i]
    {
      f.AddPhrase(Entry(exceptions[i], 0, false, true));
    }
    f.BuildFailures();
    filter := f;
  }
}
