/**
 The domain trie: labels are added last-first to a pointer trie, which Compile flattens into two
 arrays searched by binary search. Matching must mean "some rule's labels end the host's labels".
 */
module DomainTries {

  import Bytes

  type Path = seq<string>

  // ---------------------------------------------------------------- labels

  /** The non-empty pieces of a host between dots, left to right. */
  function Labels(host: string): (r: seq<string>)
    ensures host != [] && host[|host| - 1] != '.' ==> r != []
  {
    if host == [] then []
    else
      var front, c := host[..|host| - 1], host[|host| - 1];
      var ls := Labels(front);
      if c == '.' then ls
      else if front == [] || front[|front| - 1] == '.' then ls + [[c]]
      else ls[..|ls| - 1] + [ls[|ls| - 1] + [c]]
  }

  /** A letter after a dot starts a label; a letter after a letter extends the last one. */
  lemma LabelsLetter(front: string, c: char)
    requires c != '.'
    ensures front == [] || front[|front| - 1] == '.' ==> Labels(front + [c]) == Labels(front) + [[c]]
    ensures front != [] && front[|front| - 1] != '.' ==>
      var ls := Labels(front); Labels(front + [c]) == ls[..|ls| - 1] + [ls[|ls| - 1] + [c]]
  {
  }

  lemma {:induction false} LabelsAppend(a: string, word: string)
    requires '.' !in word && word != [] && (a == [] || a[|a| - 1] == '.')
    ensures Labels(a + word) == Labels(a) + [word]
  {
    hide Labels;
    var w, c := word[..|word| - 1], word[|word| - 1];
    assert word == w + [c];
    assert a + word == (a + w) + [c];
    LabelsLetter(a + w, c);
    if w == [] {
      assert a + w == a;
    } else {
      LabelsAppend(a, w);
    }
  }

  lemma LabelsDot(a: string)
    ensures Labels(a + ['.']) == Labels(a)
  {
  }

  function Reverse(p: Path): (r: Path)
    ensures |r| == |p| && forall i | 0 <= i < |p| :: r[i] == p[|p| - 1 - i]
  {
    seq(|p|, i requires 0 <= i < |p| => p[|p| - 1 - i])
  }

  ghost predicate EndsWith(host: Path, rule: Path)
  {
    |rule| <= |host| && host[|host| - |rule|..] == rule
  }

  lemma ReverseSuffix(host: Path, rule: Path)
    ensures EndsWith(host, rule) <==> Reverse(rule) <= Reverse(host)
  {
    if |rule| <= |host| {
      var h, r := Reverse(host), Reverse(rule);
      if r <= h {
        forall i | 0 <= i < |rule| ensures rule[i] == host[|host| - |rule|..][i] {
          assert r[|rule| - 1 - i] == h[|rule| - 1 - i];
        }
      }
    }
  }

  /** What Match promises: some added domain's labels end the host's labels. */
  ghost predicate Matches(rules: set<Path>, host: string)
  {
    exists p :: p in rules && p <= Reverse(Labels(host))
  }

  // ---------------------------------------------------------------- word order

  predicate Less(a: string, b: string)
  {
    b != [] && (a == [] || a[0] < b[0] || (a[0] == b[0] && Less(a[1..], b[1..])))
  }

  lemma {:induction false} LessTotal(a: string, b: string)
    ensures Less(a, b) || a == b || Less(b, a)
    ensures !(Less(a, b) && Less(b, a)) && (a == b ==> !Less(a, b))
  {
    if a != [] && b != [] {
      LessTotal(a[1..], b[1..]);
    }
  }

  lemma {:induction false} LessTransitive(a: string, b: string, c: string)
    requires Less(a, b) && Less(b, c)
    ensures Less(a, c)
  {
    if a != [] {
      if a[0] == b[0] && b[0] == c[0] {
        LessTransitive(a[1..], b[1..], c[1..]);
      }
    }
  }

  ghost predicate Sorted(labels: seq<string>)
  {
    forall i, j | 0 <= i < j < |labels| :: Less(labels[i], labels[j])
  }

  /** sort.Strings over the keys of a map, whatever order they come in. */
  method SortLabels(keys: set<string>) returns (labels: seq<string>)
    ensures Sorted(labels)
    ensures forall l :: l in labels <==> l in keys
  {
    labels := [];
    var rest := keys;
    while rest != {}
      invariant Sorted(labels) && rest <= keys
      invariant forall l :: l in labels <==> l in keys - rest
      decreases rest
    {
      var l :| l in rest;
      labels := Insert(labels, l);
      rest := rest - {l};
    }
  }

  method Insert(labels: seq<string>, l: string) returns (r: seq<string>)
    requires Sorted(labels) && l !in labels
    ensures Sorted(r)
    ensures forall x :: x in r <==> x in labels || x == l
  {
    var i := 0;
    while i < |labels| && Less(labels[i], l)
      invariant 0 <= i <= |labels|
      invariant forall j | 0 <= j < i :: Less(labels[j], l)
    {
      i := i + 1;
    }
    r := labels[..i] + [l] + labels[i..];
    forall j | i <= j < |labels| ensures Less(l, labels[j]) {
      LessTotal(l, labels[i]);
      if j > i {
        LessTransitive(l, labels[i], labels[j]);
      }
    }
    assert forall x :: x in labels <==> x in labels[..i] || x in labels[i..] by {
    }
  }

  // ---------------------------------------------------------------- the builder trie

  /** builderNode; children point into the table of allocated nodes. */
  datatype BuilderNode = BuilderNode(blocked: bool, children: map<string, nat>)

  type Index = map<Path, nat>

  ghost predicate IsIndex(id: Index, n: nat)
  {
    && [] in id && id[[]] == 0
    && (forall p | p in id :: id[p] < n)
    && (forall p, q | p in id && q in id && id[p] == id[q] :: p == q)
    && (forall p: Path, l: string {:trigger p + [l]} | p + [l] in id :: p in id)
  }

  ghost predicate NodeOk(builder: seq<BuilderNode>, id: Index, rules: set<Path>, p: Path)
    requires p in id && id[p] < |builder|
  {
    var node := builder[id[p]];
    && (node.blocked <==> p in rules)
    && (forall l {:trigger l in node.children} {:trigger p + [l]} :: l in node.children <==> p + [l] in id)
    && (forall l | l in node.children :: node.children[l] == id[p + [l]])
  }

  /** The allocated nodes are exactly the index; every rule is a node; children come after parents. */
  ghost predicate BuilderOk(builder: seq<BuilderNode>, id: Index, rules: set<Path>)
  {
    && IsIndex(id, |builder|)
    && (forall p {:trigger NodeOk(builder, id, rules, p)} | p in id :: NodeOk(builder, id, rules, p))
    && (forall p | p in rules :: p in id && p != [])
    && Forward(builder)
  }

  ghost predicate Forward(builder: seq<BuilderNode>)
  {
    forall n, l | 0 <= n < |builder| && l in builder[n].children :: n < builder[n].children[l] < |builder|
  }

  function HangChild(builder: seq<BuilderNode>, n: nat, l: string): (r: seq<BuilderNode>)
    requires n < |builder|
  {
    builder[n := BuilderNode(builder[n].blocked, builder[n].children[l := |builder|])] + [BuilderNode(false, map[])]
  }

  lemma HangIndex(id: Index, n: nat, p: Path, l: string)
    requires IsIndex(id, n) && p in id && p + [l] !in id
    ensures IsIndex(id[p + [l] := n], n + 1)
  {
    var id' := id[p + [l] := n];
    forall q: Path, m: string | q + [m] in id' ensures q in id' {
      Bytes.SnocInjective(p, l, q, m);
    }
  }

  lemma HangOk(builder: seq<BuilderNode>, id: Index, rules: set<Path>, p: Path, l: string)
    requires BuilderOk(builder, id, rules) && p in id && p + [l] !in id
    ensures BuilderOk(HangChild(builder, id[p], l), id[p + [l] := |builder|], rules)
  {
    var id' := id[p + [l] := |builder|];
    var builder' := HangChild(builder, id[p], l);
    hide NodeOk, IsIndex, Forward, HangChild;
    assert id[p] < |builder| by {
      IndexBound(id, |builder|, p);
    }
    HangIndex(id, |builder|, p, l);
    HangForward(builder, id[p], l);
    forall q | q in id'
      ensures id'[q] < |builder'| && NodeOk(builder', id', rules, q)
    {
      if q != p + [l] {
        assert NodeOk(builder, id, rules, q);
      }
      HangNodeOk(builder, id, rules, p, l, q);
    }
  }

  lemma IndexBound(id: Index, n: nat, p: Path)
    requires IsIndex(id, n) && p in id
    ensures id[p] < n
  {
  }

  lemma HangForward(builder: seq<BuilderNode>, at: nat, l: string)
    requires Forward(builder) && at < |builder|
    ensures |HangChild(builder, at, l)| == |builder| + 1 && Forward(HangChild(builder, at, l))
  {
  }

  lemma HangNodeOk(builder: seq<BuilderNode>, id: Index, rules: set<Path>, p: Path, l: string, q: Path)
    requires IsIndex(id, |builder|) && p in id && p + [l] !in id
    requires forall r | r in rules :: r in id
    requires q == p + [l] || (q in id && NodeOk(builder, id, rules, q))
    ensures NodeOk(HangChild(builder, id[p], l), id[p + [l] := |builder|], rules, q)
  {
    var id' := id[p + [l] := |builder|];
    var node := HangChild(builder, id[p], l)[id'[q]];
    forall m ensures m in node.children <==> q + [m] in id' {
      Bytes.SnocInjective(p, l, q, m);
    }
  }

  lemma ChildrenAt(builder: seq<BuilderNode>, id: Index, rules: set<Path>, p: Path, l: string)
    requires BuilderOk(builder, id, rules) && p in id
    ensures id[p] < |builder|
    ensures builder[id[p]].blocked <==> p in rules
    ensures l in builder[id[p]].children <==> p + [l] in id
    ensures l in builder[id[p]].children ==> builder[id[p]].children[l] == id[p + [l]]
  {
    assert NodeOk(builder, id, rules, p);
  }

  lemma RootAt(builder: seq<BuilderNode>, id: Index, rules: set<Path>)
    requires BuilderOk(builder, id, rules)
    ensures builder != [] && !builder[0].blocked && Forward(builder) && [] in id && id[[]] == 0
  {
    assert NodeOk(builder, id, rules, []);
  }

  function BlockNode(builder: seq<BuilderNode>, n: nat): (r: seq<BuilderNode>)
    requires n < |builder|
  {
    builder[n := BuilderNode(true, builder[n].children)]
  }

  lemma BlockOk(builder: seq<BuilderNode>, id: Index, rules: set<Path>, p: Path)
    requires BuilderOk(builder, id, rules) && p in id && p != []
    ensures BuilderOk(BlockNode(builder, id[p]), id, rules + {p})
  {
    var builder' := BlockNode(builder, id[p]);
    forall q | q in id ensures NodeOk(builder', id, rules + {p}, q) {
      assert NodeOk(builder, id, rules, q);
    }
  }

  // ---------------------------------------------------------------- the flat trie

  datatype FlatNode = FlatNode(blocked: bool, firstChild: nat, childCount: nat)

  datatype FlatTransition = FlatTransition(word: string, node: nat)

  /**
   Flat node i stands for builder node src[i]: its transitions are contiguous, strictly sorted,
   and are exactly the builder node's children.
   */
  ghost predicate FlatOk(builder: seq<BuilderNode>, nodes: seq<FlatNode>, trans: seq<FlatTransition>, src: seq<nat>, i: nat)
    requires i < |nodes| == |src|
  {
    && src[i] < |builder|
    && nodes[i].blocked == builder[src[i]].blocked
    && nodes[i].firstChild + nodes[i].childCount <= |trans|
    && SliceSorted(trans, nodes[i].firstChild, nodes[i].firstChild + nodes[i].childCount)
    && (forall k | nodes[i].firstChild <= k < nodes[i].firstChild + nodes[i].childCount ::
          Leads(builder[src[i]], trans[k], src))
    && (forall l | l in builder[src[i]].children ::
          exists k :: nodes[i].firstChild <= k < nodes[i].firstChild + nodes[i].childCount && trans[k].word == l)
  }

  ghost predicate SliceSorted(trans: seq<FlatTransition>, lo: nat, hi: nat)
    requires hi <= |trans|
  {
    forall j, k | lo <= j < k < hi :: Less(trans[j].word, trans[k].word)
  }

  ghost predicate Leads(node: BuilderNode, t: FlatTransition, src: seq<nat>)
  {
    t.word in node.children && t.node < |src| && src[t.node] == node.children[t.word]
  }

  /** The arrays after the subtree of n has been appended: what was there stays, what is new is finished. */
  ghost predicate Flattened(builder: seq<BuilderNode>, n: nat,
                            nodes0: seq<FlatNode>, trans0: seq<FlatTransition>, src0: seq<nat>,
                            nodes: seq<FlatNode>, trans: seq<FlatTransition>, src: seq<nat>)
  {
    && |nodes| == |src| && |nodes0| == |src0| < |nodes|
    && nodes0 <= nodes && trans0 <= trans && src0 <= src && src[|src0|] == n
    && AllFinished(builder, nodes, trans, src, |nodes0|, |trans0|)
  }

  ghost predicate Finished(builder: seq<BuilderNode>, nodes: seq<FlatNode>, trans: seq<FlatTransition>, src: seq<nat>, i: nat, lo: nat)
    requires i < |nodes| == |src|
  {
    FlatOk(builder, nodes, trans, src, i) && (nodes[i].childCount > 0 ==> nodes[i].firstChild >= lo)
  }

  ghost predicate AllFinished(builder: seq<BuilderNode>, nodes: seq<FlatNode>, trans: seq<FlatTransition>, src: seq<nat>, from: nat, lo: nat)
    requires |nodes| == |src|
  {
    forall i | from <= i < |nodes| :: Finished(builder, nodes, trans, src, i, lo)
  }

  /** Midway: the node and its words are reserved, and its first j children are flattened and linked. */
  ghost predicate Midway(builder: seq<BuilderNode>, n: nat, words: seq<string>, j: nat,
                         nodes0: seq<FlatNode>, trans0: seq<FlatTransition>, src0: seq<nat>,
                         nodes: seq<FlatNode>, trans: seq<FlatTransition>, src: seq<nat>)
    requires n < |builder| && j <= |words|
  {
    && |nodes| == |src| && |nodes0| == |src0| < |nodes| && |trans0| + |words| <= |trans|
    && nodes0 <= nodes && trans0 <= trans && src0 <= src && src[|src0|] == n
    && nodes[|nodes0|].blocked == builder[n].blocked
    && (forall k | |trans0| <= k < |trans0| + |words| :: trans[k].word == words[k - |trans0|])
    && (forall k | |trans0| <= k < |trans0| + j :: Leads(builder[n], trans[k], src))
    && AllFinished(builder, nodes, trans, src, |nodes0| + 1, |trans0| + |words|)
  }

  lemma FinishedGrows(builder: seq<BuilderNode>, nodes: seq<FlatNode>, trans: seq<FlatTransition>, src: seq<nat>, lo: nat,
                      nodes': seq<FlatNode>, trans': seq<FlatTransition>, src': seq<nat>, i: nat)
    requires i < |nodes| == |src| && |nodes'| == |src'|
    requires Finished(builder, nodes, trans, src, i, lo)
    requires |nodes| <= |nodes'| && nodes'[i] == nodes[i] && src <= src' && |trans| <= |trans'|
    requires forall k | lo <= k < |trans| :: trans'[k] == trans[k]
    ensures Finished(builder, nodes', trans', src', i, lo)
  {
  }

  lemma LinkChild(builder: seq<BuilderNode>, n: nat, words: seq<string>, j: nat,
                  nodes0: seq<FlatNode>, trans0: seq<FlatTransition>, src0: seq<nat>,
                  nodes: seq<FlatNode>, trans: seq<FlatTransition>, src: seq<nat>,
                  nodes': seq<FlatNode>, trans': seq<FlatTransition>, src': seq<nat>)
    requires n < |builder| && j < |words| && words[j] in builder[n].children
    requires Midway(builder, n, words, j, nodes0, trans0, src0, nodes, trans, src)
    requires Flattened(builder, builder[n].children[words[j]], nodes, trans, src, nodes', trans', src')
    ensures Midway(builder, n, words, j + 1, nodes0, trans0, src0,
                   nodes', trans'[|trans0| + j := FlatTransition(words[j], |nodes|)], src')
  {
    var linked := trans'[|trans0| + j := FlatTransition(words[j], |nodes|)];
    var lo := |trans0| + |words|;
    forall i | |nodes0| < i < |nodes'| ensures Finished(builder, nodes', linked, src', i, lo) {
      if i < |nodes| {
        FinishedGrows(builder, nodes, trans, src, lo, nodes', linked, src', i);
      } else {
        assert Finished(builder, nodes', trans', src', i, |trans|);
        FinishedGrows(builder, nodes', trans', src', lo, nodes', linked, src', i);
      }
    }
  }

  lemma CloseNode(builder: seq<BuilderNode>, n: nat, words: seq<string>,
                  nodes0: seq<FlatNode>, trans0: seq<FlatTransition>, src0: seq<nat>,
                  nodes: seq<FlatNode>, trans: seq<FlatTransition>, src: seq<nat>)
    requires n < |builder| && Sorted(words) && forall l :: l in words <==> l in builder[n].children
    requires Midway(builder, n, words, |words|, nodes0, trans0, src0, nodes, trans, src)
    ensures Flattened(builder, n, nodes0, trans0, src0,
                      nodes[|nodes0| := FlatNode(builder[n].blocked, |trans0|, |words|)], trans, src)
  {
    var at := |nodes0|;
    var nodes' := nodes[at := FlatNode(builder[n].blocked, |trans0|, |words|)];
    forall i | at < i < |nodes| ensures Finished(builder, nodes', trans, src, i, |trans0|) {
      FinishedGrows(builder, nodes, trans, src, |trans0| + |words|, nodes', trans, src, i);
    }
    forall l | l in builder[n].children
      ensures exists k :: |trans0| <= k < |trans0| + |words| && trans[k].word == l
    {
      var j :| 0 <= j < |words| && words[j] == l;
      assert trans[|trans0| + j].word == l;
    }
  }

  lemma ForwardAt(builder: seq<BuilderNode>, n: nat, l: string)
    requires Forward(builder) && n < |builder| && l in builder[n].children
    ensures n < builder[n].children[l] < |builder|
  {
  }

  /** A leaf is finished as soon as it is appended. */
  lemma StartNode(builder: seq<BuilderNode>, n: nat, nodes: seq<FlatNode>, trans: seq<FlatTransition>, src: seq<nat>)
    requires n < |builder| && |nodes| == |src|
    ensures |builder[n].children| == 0 ==>
      Flattened(builder, n, nodes, trans, src, nodes + [FlatNode(builder[n].blocked, 0, 0)], trans, src + [n])
  {
  }

  function Reserve(words: seq<string>): (r: seq<FlatTransition>)
    ensures |r| == |words| && forall k | 0 <= k < |words| :: r[k].word == words[k]
  {
    seq(|words|, k requires 0 <= k < |words| => FlatTransition(words[k], 0))
  }

  lemma ReserveWords(builder: seq<BuilderNode>, n: nat, words: seq<string>, nodes: seq<FlatNode>, trans: seq<FlatTransition>, src: seq<nat>)
    requires n < |builder| && |nodes| == |src|
    ensures Midway(builder, n, words, 0, nodes, trans, src,
                   nodes + [FlatNode(builder[n].blocked, 0, 0)], trans + Reserve(words), src + [n])
  {
  }

  lemma MidwayShape(builder: seq<BuilderNode>, n: nat, words: seq<string>, j: nat,
                    nodes0: seq<FlatNode>, trans0: seq<FlatTransition>, src0: seq<nat>,
                    nodes: seq<FlatNode>, trans: seq<FlatTransition>, src: seq<nat>)
    requires n < |builder| && j <= |words|
    requires Midway(builder, n, words, j, nodes0, trans0, src0, nodes, trans, src)
    ensures |nodes| == |src| && |nodes0| == |src0| < |nodes| && |trans0| + |words| <= |trans|
  {
  }

  lemma FlattenedShape(builder: seq<BuilderNode>, n: nat,
                       nodes0: seq<FlatNode>, trans0: seq<FlatTransition>, src0: seq<nat>,
                       nodes: seq<FlatNode>, trans: seq<FlatTransition>, src: seq<nat>)
    requires Flattened(builder, n, nodes0, trans0, src0, nodes, trans, src)
    ensures |nodes0| < |nodes| == |src| && |trans0| <= |trans|
  {
  }

  lemma FlattenedWhole(builder: seq<BuilderNode>, nodes: seq<FlatNode>, trans: seq<FlatTransition>, src: seq<nat>)
    requires Flattened(builder, 0, [], [], [], nodes, trans, src)
    ensures 0 < |nodes| == |src| && src[0] == 0
    ensures forall i | 0 <= i < |nodes| :: FlatOk(builder, nodes, trans, src, i)
  {
    hide FlatOk;
    forall i | 0 <= i < |nodes|
      ensures FlatOk(builder, nodes, trans, src, i)
    {
      assert Finished(builder, nodes, trans, src, i, 0);
    }
  }

  class DomainTrie {
    var builder: seq<BuilderNode>  // empty stands for a nil root
    var flatNodes: seq<FlatNode>
    var flatTransitions: seq<FlatTransition>
    var flatRootBlocked: bool
    var compiled: bool
    ghost var id: Index            // the builder's nodes by path
    ghost var pending: set<Path>   // the rules in the builder
    ghost var kept: seq<BuilderNode>  // the builder the flat arrays were made from
    ghost var keptId: Index
    ghost var active: set<Path>    // the rules in the flat arrays
    ghost var src: seq<nat>

    ghost predicate Flat()
      reads this
    {
      && |src| == |flatNodes| && !flatRootBlocked
      && (flatNodes == [] ==> active == {})
      && (flatNodes != [] ==> BuilderOk(kept, keptId, active) && src[0] == 0)
      && (forall i | 0 <= i < |flatNodes| :: FlatOk(kept, flatNodes, flatTransitions, src, i))
    }

    ghost predicate Valid()
      reads this
    {
      Flat() && (builder != [] ==> BuilderOk(builder, id, pending)) && (compiled ==> builder == [])
    }

    /** The rules the next Match answers for. */
    ghost function Rules(): set<Path>
      reads this
    {
      if builder != [] then pending else active
    }

    constructor ()
      ensures Valid() && Rules() == {}
    {
      builder, flatNodes, flatTransitions, flatRootBlocked, compiled := [], [], [], false, false;
      active, src := {}, [];
    }

    /**
     Add: one rule more. A trie whose builder was consumed by a compilation starts afresh, so
     whatever was compiled before is no longer answered for.
     */
    method Add(domain: string)
      requires Valid()
      modifies this
      ensures Valid()
      ensures Labels(domain) == [] ==> Rules() == old(Rules()) && builder == old(builder)
      ensures Labels(domain) != [] ==>
        builder != [] && Rules() == (if old(builder) == [] then {} else old(Rules())) + {Reverse(Labels(domain))}
    {
      hide BuilderOk, FlatOk, Labels, Reverse, HangChild;
      var labels := Labels(domain);
      if |labels| == 0 {
        return;
      }
      if builder == [] {
        builder := [BuilderNode(false, map[])];
        id, pending := map[[] := 0], {};
        FreshRoot();
      }
      ghost var path := Reverse(labels);
      var node := Descend(labels);
      BlockOk(builder, id, pending, path);
      builder := BlockNode(builder, node);
      pending := pending + {path};
      compiled := false;
    }

    /** The loop of Add: walk down from the root by the labels, last one first, creating what is missing. */
    method Descend(labels: seq<string>) returns (node: nat)
      requires BuilderOk(builder, id, pending) && labels != []
      modifies this`builder, this`id
      ensures BuilderOk(builder, id, pending) && builder != []
      ensures Reverse(labels) in id && node == id[Reverse(labels)] < |builder| && Reverse(labels) != []
    {
      hide BuilderOk;
      ghost var path := Reverse(labels);
      node := 0;
      var i := |labels|;
      RootAt(builder, id, pending);
      while i > 0
        invariant 0 <= i <= |labels|
        invariant BuilderOk(builder, id, pending)
        invariant path[..|labels| - i] in id && node == id[path[..|labels| - i]] < |builder|
      {
        ghost var p := path[..|labels| - i];
        i := i - 1;
        var l := labels[i];
        assert path[..|labels| - i] == p + [l];
        ChildrenAt(builder, id, pending, p, l);
        if l !in builder[node].children {
          HangOk(builder, id, pending, p, l);
          id := id[p + [l] := |builder|];
          builder := HangChild(builder, node, l);
          ChildrenAt(builder, id, pending, p, l);
        }
        node := builder[node].children[l];
        ChildrenAt(builder, id, pending, p + [l], l);
      }
      assert path[..|labels|] == path;
    }

    /** buildFlat: the subtree of n is appended to the two arrays. */
    method BuildFlat(n: nat) returns (nodeIdx: nat)
      requires Forward(builder) && n < |builder| && |src| == |flatNodes|
      modifies this`flatNodes, this`flatTransitions, this`src
      ensures nodeIdx == |old(flatNodes)|
      ensures Flattened(builder, n, old(flatNodes), old(flatTransitions), old(src), flatNodes, flatTransitions, src)
      decreases |builder| - n, 1
    {
      hide Midway, Flattened, Forward, Sorted;
      StartNode(builder, n, flatNodes, flatTransitions, src);
      nodeIdx := |flatNodes|;
      flatNodes := flatNodes + [FlatNode(builder[n].blocked, 0, 0)];
      src := src + [n];
      if |builder[n].children| == 0 {
        return;
      }
      var words := SortLabels(builder[n].children.Keys);
      ReserveWords(builder, n, words, old(flatNodes), flatTransitions, old(src));
      var start := |flatTransitions|;
      flatTransitions := flatTransitions + Reserve(words);
      var i := 0;
      while i < |words|
        invariant 0 <= i <= |words|
        invariant Midway(builder, n, words, i, old(flatNodes), old(flatTransitions), old(src), flatNodes, flatTransitions, src)
      {
        BuildChild(n, words, i, start, old(flatNodes), old(flatTransitions), old(src));
        i := i + 1;
      }
      MidwayShape(builder, n, words, i, old(flatNodes), old(flatTransitions), old(src), flatNodes, flatTransitions, src);
      CloseNode(builder, n, words, old(flatNodes), old(flatTransitions), old(src), flatNodes, flatTransitions, src);
      flatNodes := flatNodes[nodeIdx := FlatNode(builder[n].blocked, start, |words|)];
    }

    /** One child of n, flattened and linked. */
    method BuildChild(n: nat, words: seq<string>, i: nat, start: nat,
                      ghost nodes0: seq<FlatNode>, ghost trans0: seq<FlatTransition>, ghost src0: seq<nat>)
      requires Forward(builder) && n < |builder| && i < |words| && start == |trans0| && Sorted(words)
      requires forall l :: l in words <==> l in builder[n].children
      requires Midway(builder, n, words, i, nodes0, trans0, src0, flatNodes, flatTransitions, src)
      modifies this`flatNodes, this`flatTransitions, this`src
      ensures Midway(builder, n, words, i + 1, nodes0, trans0, src0, flatNodes, flatTransitions, src)
      decreases |builder| - n, 0
    {
      hide Midway, Flattened, Forward, Sorted;
      ghost var nodes1, trans1, src1 := flatNodes, flatTransitions, src;
      assert words[i] in builder[n].children;
      ForwardAt(builder, n, words[i]);
      MidwayShape(builder, n, words, i, nodes0, trans0, src0, flatNodes, flatTransitions, src);
      var child := BuildFlat(builder[n].children[words[i]]);
      FlattenedShape(builder, builder[n].children[words[i]], nodes1, trans1, src1, flatNodes, flatTransitions, src);
      LinkChild(builder, n, words, i, nodes0, trans0, src0, nodes1, trans1, src1, flatNodes, flatTransitions, src);
      flatTransitions := flatTransitions[start + i := FlatTransition(words[i], child)];
    }

    /** Compile keeps the rules the trie answers for, and leaves nothing for a second compilation to do. */
    method Compile()
      requires Valid()
      modifies this
      ensures Valid() && compiled && Rules() == old(Rules()) == active
    {
      hide BuilderOk, FlatOk, Flattened, Forward;
      if compiled {
        return;
      }
      if builder == [] {
        compiled := true;
        return;
      }
      RootAt(builder, id, pending);
      flatNodes, flatTransitions, src := [], [], [];
      flatRootBlocked := builder[0].blocked;
      var _ := BuildFlat(0);
      kept, keptId, active := builder, id, pending;
      FlattenedWhole(kept, flatNodes, flatTransitions, src);
      builder := [];
      compiled := true;
    }

    /** Match: compiled or not, the answer is whether a rule's labels end the host's labels (the root itself is never blocked). */
    method Match(host: string) returns (matched: bool)
      requires Valid()
      modifies this
      ensures Valid() && Rules() == old(Rules())
      ensures matched <==> Matches(Rules(), host)
    {
      if !compiled {
        Compile();
      }
      if flatNodes == [] {
        return false;
      }
      hide BuilderOk, FlatOk;
      matched := Search(host);
    }

    method Search(host: string) returns (matched: bool)
      requires Flat() && flatNodes != []
      ensures matched <==> Matches(active, host)
    {
      hide BuilderOk, FlatOk, NoneUpTo, Matches, Consumed;
      RootAt(kept, keptId, active);
      RuleNonEmpty(kept, keptId, active);
      ConsumedStart(host);
      var nodeIdx, end := 0, |host|;
      ghost var seen: Path := [];
      while end > 0
        invariant 0 <= end <= |host| && Consumed(host, end, seen)
        invariant seen in keptId && nodeIdx < |flatNodes| && src[nodeIdx] == keptId[seen]
        invariant NoneUpTo(active, seen)
      {
        var start := LastDot(host, end);
        var word := host[start + 1..end];
        ConsumedStep(host, start, end, seen);
        end := if start == -1 then 0 else start;
        if word == [] {
          continue;
        }
        var next, found := Follow(nodeIdx, seen, word);
        if !found {
          DeadEnd(kept, keptId, active, seen, word, host, end);
          return false;
        }
        NoneSnoc(active, seen, word);
        nodeIdx, seen := next, seen + [word];
        if flatNodes[nodeIdx].blocked {
          Found(active, host, end, seen);
          return true;
        }
      }
      ConsumedAll(active, host, seen);
      FlatBlocked(kept, keptId, active, flatNodes, flatTransitions, src, nodeIdx, seen);
      matched := flatNodes[nodeIdx].blocked;
    }

    /** One label of the search: the child exists exactly when the longer path is in the trie. */
    method Follow(nodeIdx: nat, ghost seen: Path, word: string) returns (next: nat, found: bool)
      requires Flat() && nodeIdx < |flatNodes| && seen in keptId && src[nodeIdx] == keptId[seen]
      ensures found <==> seen + [word] in keptId
      ensures found ==> next < |flatNodes| && src[next] == keptId[seen + [word]]
      ensures found ==> (flatNodes[next].blocked <==> seen + [word] in active)
    {
      hide BuilderOk, FlatOk, SliceSorted;
      var node := flatNodes[nodeIdx];
      FlatAt(kept, keptId, active, flatNodes, flatTransitions, src, nodeIdx, seen, word);
      if node.childCount == 0 {
        return 0, false;
      }
      var at;
      at, found := BinarySearchTransition(node.firstChild, node.firstChild + node.childCount, word);
      if !found {
        return 0, false;
      }
      LeadsTo(kept, keptId, active, flatNodes, flatTransitions, src, nodeIdx, seen, at);
      next := flatTransitions[at].node;
      FlatBlocked(kept, keptId, active, flatNodes, flatTransitions, src, next, seen + [word]);
    }

    /** binarySearchTransition over a sorted stretch: finds the word wherever it is. */
    method BinarySearchTransition(start: nat, end: nat, word: string) returns (at: nat, found: bool)
      requires start <= end <= |flatTransitions| && SliceSorted(flatTransitions, start, end)
      ensures found ==> start <= at < end && flatTransitions[at].word == word
      ensures !found ==> forall k | start <= k < end :: flatTransitions[k].word != word
    {
      var low, high := start, end;
      while low < high
        invariant start <= low <= high <= end
        invariant forall k | start <= k < low :: Less(flatTransitions[k].word, word)
        invariant forall k | high <= k < end :: Less(word, flatTransitions[k].word)
      {
        var mid := low + (high - low) / 2;
        var midWord := flatTransitions[mid].word;
        if midWord == word {
          return mid, true;
        }
        LessTotal(midWord, word);
        if Less(midWord, word) {
          forall k | start <= k <= mid ensures Less(flatTransitions[k].word, word) {
            if k < mid {
              LessTransitive(flatTransitions[k].word, midWord, word);
            }
          }
          low := mid + 1;
        } else {
          forall k | mid <= k < end ensures Less(word, flatTransitions[k].word) {
            if k > mid {
              LessTransitive(word, midWord, flatTransitions[k].word);
            }
          }
          high := mid;
        }
      }
      forall k | start <= k < end ensures flatTransitions[k].word != word {
        LessTotal(flatTransitions[k].word, word);
      }
      return 0, false;
    }
  }

  // ---------------------------------------------------------------- walking the flat trie

  method LastDot(host: string, end: nat) returns (start: int)
    requires end <= |host|
    ensures -1 <= start < end && (start >= 0 ==> host[start] == '.')
    ensures forall i | start < i < end :: host[i] != '.'
  {
    start := end - 1;
    while start >= 0 && host[start] != '.'
      invariant -1 <= start < end
      invariant forall i | start < i < end :: host[i] != '.'
    {
      start := start - 1;
    }
  }

  lemma LabelStep(host: string, start: int, end: nat)
    requires -1 <= start < end <= |host| && (start >= 0 ==> host[start] == '.')
    requires forall i | start < i < end :: host[i] != '.'
    ensures var word := host[start + 1..end]; var rest := host[..if start == -1 then 0 else start];
      Reverse(Labels(host[..end])) == (if word == [] then [] else [word]) + Reverse(Labels(rest))
  {
    hide Labels;
    var word, rest := host[start + 1..end], host[..if start == -1 then 0 else start];
    var a := host[..start + 1];
    assert host[..end] == a + word;
    if start >= 0 {
      assert a == rest + ['.'];
      LabelsDot(rest);
    } else {
    }
    if word == [] {
    } else {
      LabelsAppend(a, word);
    }
  }

  /** No rule is a prefix of p. */
  ghost predicate NoneUpTo(rules: set<Path>, p: Path)
  {
    forall q | q in rules :: !(q <= p)
  }

  lemma RuleNonEmpty(builder: seq<BuilderNode>, id: Index, rules: set<Path>)
    requires BuilderOk(builder, id, rules)
    ensures [] !in rules && NoneUpTo(rules, [])
  {
  }

  /** The labels of host[end..], last one first, are seen. */
  ghost predicate Consumed(host: string, end: nat, seen: Path)
    requires end <= |host|
  {
    Reverse(Labels(host)) == seen + Reverse(Labels(host[..end]))
  }

  lemma ConsumedStart(host: string)
    ensures Consumed(host, |host|, [])
  {
    assert host[..|host|] == host;
  }

  lemma ConsumedStep(host: string, start: int, end: nat, seen: Path)
    requires -1 <= start < end <= |host| && (start >= 0 ==> host[start] == '.')
    requires forall i | start < i < end :: host[i] != '.'
    requires Consumed(host, end, seen)
    ensures var word := host[start + 1..end];
      Consumed(host, if start == -1 then 0 else start, if word == [] then seen else seen + [word])
  {
    hide Labels, Reverse;
    LabelStep(host, start, end);
  }

  lemma Found(rules: set<Path>, host: string, end: nat, p: Path)
    requires p in rules && end <= |host| && Consumed(host, end, p)
    ensures Matches(rules, host)
  {
  }

  lemma ConsumedAll(rules: set<Path>, host: string, seen: Path)
    requires Consumed(host, 0, seen) && NoneUpTo(rules, seen)
    ensures seen !in rules && !Matches(rules, host)
  {
  }

  lemma NoneSnoc(rules: set<Path>, p: Path, word: string)
    requires NoneUpTo(rules, p)
    ensures p + [word] !in rules ==> NoneUpTo(rules, p + [word])
  {
    forall q | q in rules ensures q <= p + [word] <==> q == p + [word] {
    }
  }

  lemma PrefixSplit(q: Path, seen: Path, word: string, rest: Path)
    requires q <= seen + [word] + rest
    ensures q <= seen || (|q| > |seen| && q[..|seen| + 1] == seen + [word])
  {
  }

  lemma {:induction false} PrefixInIndex(id: Index, n: nat, p: Path, k: nat)
    requires IsIndex(id, n) && p in id && k <= |p|
    ensures p[..k] in id
    decreases |p|
  {
    if k == |p| {
      assert p[..k] == p;
    } else {
      var front := p[..|p| - 1];
      assert p == front + [p[|p| - 1]];
      PrefixInIndex(id, n, front, k);
      assert front[..k] == p[..k];
    }
  }

  /** No child for the next label: no rule can match, however the host goes on. */
  lemma DeadEnd(builder: seq<BuilderNode>, id: Index, rules: set<Path>, seen: Path, word: string, host: string, end: nat)
    requires BuilderOk(builder, id, rules) && NoneUpTo(rules, seen) && seen + [word] !in id
    requires end <= |host| && Consumed(host, end, seen + [word])
    ensures !Matches(rules, host)
  {
    hide Labels, Reverse;
    var rest := Reverse(Labels(host[..end]));
    forall q | q in rules && q <= seen + [word] + rest ensures false {
      PrefixSplit(q, seen, word, rest);
      PrefixInIndex(id, |builder|, q, |seen| + 1);
    }
  }

  lemma FlatBlocked(builder: seq<BuilderNode>, id: Index, rules: set<Path>,
                    nodes: seq<FlatNode>, trans: seq<FlatTransition>, src: seq<nat>, i: nat, p: Path)
    requires BuilderOk(builder, id, rules) && i < |nodes| == |src| && FlatOk(builder, nodes, trans, src, i)
    requires p in id && src[i] == id[p]
    ensures nodes[i].blocked <==> p in rules
  {
    ChildrenAt(builder, id, rules, p, "");
  }

  /** The word is among the node's transitions exactly when the longer path is in the trie. */
  lemma FlatAt(builder: seq<BuilderNode>, id: Index, rules: set<Path>,
               nodes: seq<FlatNode>, trans: seq<FlatTransition>, src: seq<nat>, i: nat, p: Path, word: string)
    requires BuilderOk(builder, id, rules) && i < |nodes| == |src| && FlatOk(builder, nodes, trans, src, i)
    requires p in id && src[i] == id[p]
    ensures nodes[i].firstChild + nodes[i].childCount <= |trans|
    ensures SliceSorted(trans, nodes[i].firstChild, nodes[i].firstChild + nodes[i].childCount)
    ensures p + [word] in id <==>
      exists k :: nodes[i].firstChild <= k < nodes[i].firstChild + nodes[i].childCount && trans[k].word == word
  {
    ChildrenAt(builder, id, rules, p, word);
  }

  lemma LeadsTo(builder: seq<BuilderNode>, id: Index, rules: set<Path>,
                nodes: seq<FlatNode>, trans: seq<FlatTransition>, src: seq<nat>, i: nat, p: Path, k: nat)
    requires BuilderOk(builder, id, rules) && i < |nodes| == |src| && FlatOk(builder, nodes, trans, src, i)
    requires p in id && src[i] == id[p]
    requires nodes[i].firstChild <= k < nodes[i].firstChild + nodes[i].childCount
    ensures k < |trans| && p + [trans[k].word] in id
    ensures trans[k].node < |src| && src[trans[k].node] == id[p + [trans[k].word]]
  {
    ChildrenAt(builder, id, rules, p, trans[k].word);
  }

  lemma FreshRoot()
    ensures BuilderOk([BuilderNode(false, map[])], map[[] := 0], {})
  {
  }

  // ---------------------------------------------------------------- the promise, on domain names

  ghost function RulesOf(domains: seq<string>): set<Path>
  {
    set i | 0 <= i < |domains| && Labels(domains[i]) != [] :: Reverse(Labels(domains[i]))
  }

  /** NewDomainRules: every domain is added, then the trie is compiled once. */
  method NewTrie(domains: seq<string>) returns (t: DomainTrie)
    ensures fresh(t) && t.Valid() && t.compiled && t.Rules() == RulesOf(domains)
  {
    hide DomainTrie.Flat, BuilderOk, Labels, Reverse;
    t := new DomainTrie();
    for i := 0 to |domains|
      invariant t.Valid() && fresh(t) && t.Rules() == RulesOf(domains[..i])
      invariant t.builder == [] ==> t.Rules() == {}
    {
      RulesOfSnoc(domains, i);
      t.Add(domains[i]);
    }
    t.Compile();
  }

  lemma RulesOfSnoc(domains: seq<string>, i: nat)
    requires i < |domains|
    ensures RulesOf(domains[..i + 1]) == RulesOf(domains[..i]) +
      if Labels(domains[i]) == [] then {} else {Reverse(Labels(domains[i]))}
  {
    hide Labels, Reverse;
    var a, b := domains[..i], domains[..i + 1];
    assert forall k | 0 <= k < i :: a[k] == b[k];
    forall p | p in RulesOf(a) ensures p in RulesOf(b) {
      var k :| 0 <= k < |a| && Labels(a[k]) != [] && p == Reverse(Labels(a[k]));
    }
  }

  /** Over rules built from domains, Match answers whether some domain's labels are a suffix of the host's. */
  lemma MatchesIsSuffix(domains: seq<string>, host: string)
    ensures Matches(RulesOf(domains), host) <==>
      exists i :: 0 <= i < |domains| && Labels(domains[i]) != [] && EndsWith(Labels(host), Labels(domains[i]))
  {
    hide Labels, Reverse, EndsWith;
    forall i | 0 <= i < |domains|
      ensures EndsWith(Labels(host), Labels(domains[i])) <==> Reverse(Labels(domains[i])) <= Reverse(Labels(host))
    {
      ReverseSuffix(Labels(host), Labels(domains[i]));
    }
    if i :| 0 <= i < |domains| && Labels(domains[i]) != [] && EndsWith(Labels(host), Labels(domains[i])) {
      assert Reverse(Labels(domains[i])) in RulesOf(domains);
    }
  }

  /** Labels with dots between them. */
  function Dotted(labels: Path): string
  {
    if labels == [] then "" else if |labels| == 1 then labels[0]
    else Dotted(labels[..|labels| - 1]) + "." + labels[|labels| - 1]
  }

  /** A name written out: at least one label, none of them empty, no dots inside. */
  ghost predicate Name(labels: Path)
  {
    labels != [] && forall i | 0 <= i < |labels| :: labels[i] != [] && '.' !in labels[i]
  }

  lemma {:induction false} LabelsOfDotted(labels: Path)
    requires Name(labels)
    ensures Labels(Dotted(labels)) == labels
  {
    hide Labels;
    var front, last := labels[..|labels| - 1], labels[|labels| - 1];
    NoLabels();
    if front == [] {
      LabelsAppend("", last);
      assert "" + last == last && labels == [] + [last];
    } else {
      LabelsOfDotted(front);
      LabelsDot(Dotted(front));
      LabelsAppend(Dotted(front) + ".", last);
      assert labels == front + [last];
    }
  }

  lemma NoLabels()
    ensures Labels("") == []
  {
  }

  /** A rule for a name covers that name and its subdomains, and nothing else. */
  lemma SubdomainsMatch(rule: Path, host: Path)
    requires Name(rule) && Name(host)
    ensures Matches(RulesOf([Dotted(rule)]), Dotted(host)) <==> exists sub: Path :: host == sub + rule
  {
    hide Labels, Reverse, Dotted, Matches;
    LabelsOfDotted(rule);
    LabelsOfDotted(host);
    MatchesIsSuffix([Dotted(rule)], Dotted(host));
    if EndsWith(host, rule) {
      assert host == host[..|host| - |rule|] + rule;
    }
    if sub: Path :| host == sub + rule {
      assert host[|host| - |rule|..] == rule;
    }
    assert [Dotted(rule)][0] == Dotted(rule);
  }
}
