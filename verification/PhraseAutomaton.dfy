/**
 The Aho-Corasick automaton of the semantic filter: trie construction, breadth-first
 fail links, in-place completion of the transition table and one-pass inheritance of
 flags and scores.

 A trie is described by an index: a finite, prefix-closed map from strings to node
 numbers. Everything the finished automaton promises is stated against the longest
 suffix of the text that is a key of that index.
 */
module PhraseAutomaton {

  import opened Bytes

  /** One addPhrase call, its text already normalised. */
  datatype Entry = Entry(text: Bytes, score: int, hard: bool, exception: bool)

  type Table = t: seq<nat> | |t| == 256 witness seq(256, _ => 0)

  datatype AhoNode = AhoNode(next: Table, fail: nat, hard: bool, excpt: bool, score: int, phrase: Bytes)

  type Index = map<Bytes, nat>

  // ---------------------------------------------------------------- int32

  const TWO32 := 0x1_0000_0000
  const MAX32 := 0x7fff_ffff

  /** The int32 a wider integer is truncated to. */
  function Wrap32(x: int): (r: int)
    ensures -0x8000_0000 <= r <= MAX32
    ensures -0x8000_0000 <= x <= MAX32 ==> r == x
  {
    (x + 0x8000_0000) % TWO32 - 0x8000_0000
  }

  lemma WrapAdd(x: int, y: int)
    ensures Wrap32(Wrap32(x) + Wrap32(y)) == Wrap32(x + y)
  {
  }

  // ---------------------------------------------------------------- what the phrases mean

  ghost predicate HardAt(es: seq<Entry>, t: Bytes)
  {
    exists i :: 0 <= i < |es| && es[i].hard && es[i].text != [] && IsSuffix(es[i].text, t)
  }

  ghost predicate ExceptAt(es: seq<Entry>, t: Bytes)
  {
    exists i :: 0 <= i < |es| && es[i].exception && es[i].text != [] && IsSuffix(es[i].text, t)
  }

  /** Sum, with multiplicity, of the scores of all phrases that end where t ends. */
  ghost function ScoreAt(es: seq<Entry>, t: Bytes): int
  {
    if es == [] then 0
    else
      var e := es[|es| - 1];
      ScoreAt(es[..|es| - 1], t) + (if e.text != [] && IsSuffix(e.text, t) then e.score else 0)
  }

  /** Some phrase at all ends where t ends. */
  ghost predicate AnyAt(es: seq<Entry>, t: Bytes)
  {
    exists i :: 0 <= i < |es| && es[i].text != [] && IsSuffix(es[i].text, t)
  }

  ghost predicate PrefixOfSome(es: seq<Entry>, s: Bytes)
  {
    s == [] || exists i :: 0 <= i < |es| && s <= es[i].text
  }

  // ---------------------------------------------------------------- longest suffix

  /** The longest suffix of t in P. */
  ghost function LongestSuffix(P: set<Bytes>, t: Bytes): (r: Bytes)
    requires [] in P
    ensures r in P && IsSuffix(r, t)
  {
    if t in P then t else LongestSuffix(P, t[1..])
  }

  ghost predicate PrefixClosed(P: set<Bytes>)
  {
    [] in P && forall s: Bytes, b: byte | s + [b] in P :: s in P
  }

  /** Every member of P that ends where t ends is a suffix of the longest one. */
  lemma {:induction false} LongestSuffixMaximal(P: set<Bytes>, t: Bytes, u: Bytes)
    requires [] in P && u in P && IsSuffix(u, t)
    ensures IsSuffix(u, LongestSuffix(P, t))
  {
    if t !in P {
      LongestSuffixMaximal(P, t[1..], u);
    }
  }

  /** Reading one more byte only needs the longest suffix so far. */
  lemma {:induction false} LongestSuffixStep(P: set<Bytes>, t: Bytes, b: byte)
    requires PrefixClosed(P)
    ensures LongestSuffix(P, t + [b]) == LongestSuffix(P, LongestSuffix(P, t) + [b])
  {
    if t !in P {
      assert (t + [b])[1..] == t[1..] + [b];
      LongestSuffixStep(P, t[1..], b);
    }
  }

  /** For u in P, ending where t ends and ending where t's longest suffix ends are the same. */
  lemma {:induction false} SuffixOfLongest(P: set<Bytes>, t: Bytes, u: Bytes)
    requires [] in P && u in P
    ensures IsSuffix(u, t) <==> IsSuffix(u, LongestSuffix(P, t))
  {
    if IsSuffix(u, t) {
      LongestSuffixMaximal(P, t, u);
    }
  }

  ghost predicate Covers(P: set<Bytes>, es: seq<Entry>)
  {
    [] in P && forall i | 0 <= i < |es| :: es[i].text in P
  }

  /** The phrases that end at a text are those that end at its longest suffix. */
  lemma {:induction false} MeaningOfLongest(P: set<Bytes>, es: seq<Entry>, t: Bytes)
    requires Covers(P, es)
    ensures HardAt(es, t) <==> HardAt(es, LongestSuffix(P, t))
    ensures ExceptAt(es, t) <==> ExceptAt(es, LongestSuffix(P, t))
    ensures AnyAt(es, t) <==> AnyAt(es, LongestSuffix(P, t))
    ensures ScoreAt(es, t) == ScoreAt(es, LongestSuffix(P, t))
  {
    forall i | 0 <= i < |es|
      ensures IsSuffix(es[i].text, t) <==> IsSuffix(es[i].text, LongestSuffix(P, t))
    {
      SuffixOfLongest(P, t, es[i].text);
    }
    SameScore(es, t, LongestSuffix(P, t));
  }

  lemma {:induction false} SameScore(es: seq<Entry>, t: Bytes, u: Bytes)
    requires forall i | 0 <= i < |es| :: IsSuffix(es[i].text, t) <==> IsSuffix(es[i].text, u)
    ensures ScoreAt(es, t) == ScoreAt(es, u)
  {
    if es != [] {
      SameScore(es[..|es| - 1], t, u);
    }
  }

  // ---------------------------------------------------------------- own values of a node

  ghost predicate OwnHard(es: seq<Entry>, s: Bytes)
  {
    s != [] && exists i :: 0 <= i < |es| && es[i].hard && es[i].text == s
  }

  ghost predicate OwnExcept(es: seq<Entry>, s: Bytes)
  {
    s != [] && exists i :: 0 <= i < |es| && es[i].exception && es[i].text == s
  }

  ghost predicate OwnAny(es: seq<Entry>, s: Bytes)
  {
    s != [] && exists i :: 0 <= i < |es| && es[i].text == s
  }

  ghost function OwnScore(es: seq<Entry>, s: Bytes): int
  {
    if es == [] then 0
    else
      var e := es[|es| - 1];
      OwnScore(es[..|es| - 1], s) + (if s != [] && e.text == s then e.score else 0)
  }

  /** A node inherits from its fail target exactly what it does not own. */
  lemma {:induction false} Inherit(P: set<Bytes>, es: seq<Entry>, s: Bytes)
    requires Covers(P, es) && s != []
    ensures var f := LongestSuffix(P, s[1..]);
      && (HardAt(es, s) <==> OwnHard(es, s) || HardAt(es, f))
      && (ExceptAt(es, s) <==> OwnExcept(es, s) || ExceptAt(es, f))
      && (AnyAt(es, s) <==> OwnAny(es, s) || AnyAt(es, f))
      && ScoreAt(es, s) == OwnScore(es, s) + ScoreAt(es, f)
  {
    forall i | 0 <= i < |es|
      ensures IsSuffix(es[i].text, s) <==> es[i].text == s || IsSuffix(es[i].text, s[1..])
    {
    }
    MeaningOfLongest(P, es, s[1..]);
    ScoreSplit(es, s);
  }

  lemma {:induction false} ScoreSplit(es: seq<Entry>, s: Bytes)
    requires s != []
    ensures ScoreAt(es, s) == OwnScore(es, s) + ScoreAt(es, s[1..])
  {
    if es != [] {
      ScoreSplit(es[..|es| - 1], s);
    }
  }

  lemma {:induction false} RootIsSilent(es: seq<Entry>)
    ensures !HardAt(es, []) && !ExceptAt(es, []) && !AnyAt(es, []) && ScoreAt(es, []) == 0
  {
    if es != [] {
      RootIsSilent(es[..|es| - 1]);
    }
  }

  lemma {:induction false} NoPhraseNoScore(es: seq<Entry>, t: Bytes)
    requires !AnyAt(es, t)
    ensures ScoreAt(es, t) == 0
  {
    if es != [] {
      var front := es[..|es| - 1];
      NoPhraseNoScore(front, t);
    }
  }

  lemma {:induction false} NotOwned(es: seq<Entry>, s: Bytes)
    requires !OwnAny(es, s)
    ensures !OwnHard(es, s) && !OwnExcept(es, s) && OwnScore(es, s) == 0
  {
    if es != [] {
      var front := es[..|es| - 1];
      NotOwned(front, s);
    }
  }

  // ---------------------------------------------------------------- trie shape

  ghost predicate IsIndex(id: Index, n: nat)
  {
    && [] in id && id[[]] == 0
    && (forall s | s in id :: id[s] < n)
    && (forall s, t | s in id && t in id && id[s] == id[t] :: s == t)
    && PrefixClosed(id.Keys)
  }

  /** The index holds exactly the prefixes of the phrases. */
  ghost predicate KeysOf(id: Index, es: seq<Entry>)
  {
    forall s {:trigger PrefixOfSome(es, s)} :: s in id <==> PrefixOfSome(es, s)
  }

  ghost function Child(id: Index, s: Bytes, b: byte): nat
  {
    if s + [b] in id then id[s + [b]] else 0
  }

  ghost predicate NextRaw(id: Index, node: AhoNode, s: Bytes)
  {
    forall b: byte :: node.next[b] == Child(id, s, b)
  }

  /** The reported phrase is non-empty exactly when some phrase ends here, and then ends here itself. */
  ghost predicate PhraseGood(any: bool, node: AhoNode, s: Bytes)
  {
    (node.phrase != [] <==> any) && IsSuffix(node.phrase, s)
  }

  ghost predicate OwnValues(es: seq<Entry>, node: AhoNode, s: Bytes)
  {
    && node.hard == OwnHard(es, s)
    && node.excpt == OwnExcept(es, s)
    && node.score == Wrap32(OwnScore(es, s))
    && PhraseGood(OwnAny(es, s), node, s)
  }

  /** The table addPhrase grows: exactly one node per prefix of an added phrase. */
  ghost predicate IsTrie(nodes: seq<AhoNode>, id: Index, es: seq<Entry>)
  {
    && IsIndex(id, |nodes|)
    && KeysOf(id, es)
    && (forall s {:trigger NextRaw(id, nodes[id[s]], s)} | s in id :: NextRaw(id, nodes[id[s]], s))
    && (forall s {:trigger OwnValues(es, nodes[id[s]], s)} | s in id :: OwnValues(es, nodes[id[s]], s))
  }

  // ---------------------------------------------------------------- finished automaton

  ghost predicate NextDone(id: Index, node: AhoNode, s: Bytes)
    requires [] in id
  {
    forall b: byte :: node.next[b] == id[LongestSuffix(id.Keys, s + [b])]
  }

  ghost predicate FullValues(es: seq<Entry>, node: AhoNode, s: Bytes)
  {
    && node.hard == HardAt(es, s)
    && node.excpt == ExceptAt(es, s)
    && node.score == Wrap32(ScoreAt(es, s))
    && PhraseGood(AnyAt(es, s), node, s)
  }

  ghost predicate IsAutomaton(nodes: seq<AhoNode>, id: Index, es: seq<Entry>)
  {
    && IsIndex(id, |nodes|)
    && KeysOf(id, es)
    && (forall s {:trigger NextDone(id, nodes[id[s]], s)} | s in id :: NextDone(id, nodes[id[s]], s))
    && (forall s {:trigger FullValues(es, nodes[id[s]], s)} | s in id :: FullValues(es, nodes[id[s]], s))
  }

  lemma {:induction false} TrieCovers(id: Index, es: seq<Entry>)
    requires [] in id && KeysOf(id, es)
    ensures Covers(id.Keys, es)
  {
    forall i | 0 <= i < |es| ensures es[i].text in id {
      assert PrefixOfSome(es, es[i].text);
    }
  }

  function Delta(nodes: seq<AhoNode>, n: nat, b: byte): (r: nat)
  {
    if n < |nodes| then nodes[n].next[b] else 0
  }

  /** The state the finished table reaches from the root on a text. */
  function Walk(nodes: seq<AhoNode>, t: Bytes): (r: nat)
  {
    if t == [] then 0 else Delta(nodes, Walk(nodes, t[..|t| - 1]), t[|t| - 1])
  }

  lemma {:induction false} TableStep(nodes: seq<AhoNode>, id: Index, es: seq<Entry>, v: Bytes, b: byte)
    requires IsAutomaton(nodes, id, es) && v in id
    ensures id[v] < |nodes| && Delta(nodes, id[v], b) == id[LongestSuffix(id.Keys, v + [b])]
  {
    assert NextDone(id, nodes[id[v]], v);
  }

  /** The state reached on t is the node that spells the longest suffix of t that starts a phrase. */
  lemma {:induction false} WalkIsLongestSuffix(nodes: seq<AhoNode>, id: Index, es: seq<Entry>, t: Bytes)
    requires IsAutomaton(nodes, id, es)
    ensures Walk(nodes, t) == id[LongestSuffix(id.Keys, t)]
  {
    if t != [] {
      var u, b := t[..|t| - 1], t[|t| - 1];
      SplitLast(t);
      WalkIsLongestSuffix(nodes, id, es, u);
      LongestSuffixStep(id.Keys, u, b);
      TableStep(nodes, id, es, LongestSuffix(id.Keys, u), b);
    }
  }

  /**
   At the state reached on t: hard (excpt) says whether a blocked (exception) phrase ends at t,
   score is the int32 sum of the weights of all phrases that end at t, and the phrase kept for
   reporting is present exactly when some phrase ends at t and then ends there itself.
   */
  lemma {:induction false} WalkValues(nodes: seq<AhoNode>, id: Index, es: seq<Entry>, t: Bytes)
    requires IsAutomaton(nodes, id, es)
    ensures Walk(nodes, t) < |nodes|
    ensures FullValues(es, nodes[Walk(nodes, t)], t)
  {
    WalkIsLongestSuffix(nodes, id, es, t);
    TrieCovers(id, es);
    MeaningOfLongest(id.Keys, es, t);
    var v := LongestSuffix(id.Keys, t);
    assert FullValues(es, nodes[id[v]], v);
  }
}
