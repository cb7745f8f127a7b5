/** The GS-MCTS search itself: shared node objects, the tree registry, the trace that lists
    the same objects, and the loops that update them in place, each tied to MctsSpec. */
module MctsTree {
  import opened Common
  import opened MctsSpec
  import opened MctsRun

  class MctsNode {
    const id: Id
    const parentId: Option<Id>
    const depth: nat
    const strategy: string
    const prompt: string
    const response: string
    var visitCount: nat
    var totalReward: real
    var score: real
    var isTerminal: bool
    var isExpanded: bool

    constructor (id: Id, parentId: Option<Id>, depth: nat, strategy: string, prompt: string, response: string)
      ensures Val() == Node(id, parentId, depth, strategy, prompt, response, 0, 0.0, 0.0, false, false)
    {
      this.id, this.parentId, this.depth := id, parentId, depth;
      this.strategy, this.prompt, this.response := strategy, prompt, response;
      visitCount, totalReward, score, isTerminal, isExpanded := 0, 0.0, 0.0, false, false;
    }

    ghost function Val(): Node
      reads this
    {
      Node(id, parentId, depth, strategy, prompt, response, visitCount, totalReward, score, isTerminal, isExpanded)
    }
  }

  ghost function Vals(ns: seq<MctsNode>): (vs: seq<Node>)
    reads ns
    ensures |vs| == |ns|
    ensures forall i :: 0 <= i < |ns| ==> vs[i] == ns[i].Val()
  {
    seq(|ns|, i requires 0 <= i < |ns| reads ns => ns[i].Val())
  }

  /** The node objects at the given positions. */
  ghost function At(ns: seq<MctsNode>, ix: seq<nat>): (out: seq<MctsNode>)
    requires forall k :: 0 <= k < |ix| ==> ix[k] < |ns|
    ensures |out| == |ix|
    ensures forall k :: 0 <= k < |ix| ==> out[k] == ns[ix[k]]
  {
    seq(|ix|, k requires 0 <= k < |ix| => ns[ix[k]])
  }

  lemma AtSnoc(ns: seq<MctsNode>, ix: seq<nat>, i: nat)
    requires i < |ns| && forall k :: 0 <= k < |ix| ==> ix[k] < |ns|
    ensures At(ns, ix + [i]) == At(ns, ix) + [ns[i]]
  {
  }

  /** `nodes` is a dictionary from id to node, filled in the order of `order`: every listed node
      is found under its id, and there are no other entries. */
  ghost predicate Indexes(nodes: map<Id, MctsNode>, order: seq<MctsNode>) {
    && |nodes| == |order|
    && forall i :: 0 <= i < |order| ==> order[i].id in nodes && nodes[order[i].id] == order[i]
  }

  lemma LookupParent(nodes: map<Id, MctsNode>, order: seq<MctsNode>, i: nat)
    requires Indexes(nodes, order) && Registry(Vals(order)) && 0 < i < |order|
    ensures order[i].parentId.Some? && order[i].parentId.value in nodes
    ensures nodes[order[i].parentId.value] == order[Parent(Vals(order), i)]
  {
    assert ChildOf(Vals(order), Parent(Vals(order), i), i);
  }

  /** The walk upwards from full[at] goes to full[at - 1], and stops at full[0]. */
  ghost predicate LeadsUp(nodes: map<Id, MctsNode>, full: seq<MctsNode>, at: nat)
    requires at < |full|
  {
    var up := full[at].parentId;
    if at == 0 then up.None? else up.Some? && up.value in nodes && nodes[up.value] == full[at - 1]
  }

  lemma PathLeadsUp(nodes: map<Id, MctsNode>, order: seq<MctsNode>, i: nat, at: nat)
    requires Indexes(nodes, order) && Registry(Vals(order)) && i < |order| && at < |Path(Vals(order), i)|
    ensures LeadsUp(nodes, At(order, Path(Vals(order), i)), at)
  {
    if at > 0 {
      PathLink(Vals(order), i, at);
      LookupParent(nodes, order, Path(Vals(order), i)[at]);
    }
  }

  /** Follows parent ids through a dictionary until a node has none, then reverses. */
  method WalkUp(nodes: map<Id, MctsNode>, node: MctsNode, ghost full: seq<MctsNode>) returns (path: seq<MctsNode>)
    requires full != [] && full[|full| - 1] == node
    requires forall at :: 0 <= at < |full| ==> LeadsUp(nodes, full, at)
    ensures path == full
  {
    path := [];
    var current: MctsNode? := node;
    while current != null
      invariant |path| <= |full|
      invariant if |path| == |full| then current == null else current == full[|full| - 1 - |path|]
      invariant forall k :: 0 <= k < |path| ==> path[k] == full[|full| - 1 - k]
      decreases |full| - |path|
    {
      var n: MctsNode := current;
      assert LeadsUp(nodes, full, |full| - 1 - |path|);
      path := path + [n];
      current := if n.parentId.Some? && n.parentId.value in nodes then nodes[n.parentId.value] else null;
    }
    path := Reverse(path);
  }

  class Tree {
    const root: MctsNode
    var nodes: map<Id, MctsNode>
    var order: seq<MctsNode>

    ghost function View(): (vs: seq<Node>)
      reads this, order
      ensures |vs| == |order|
    {
      Vals(order)
    }

    ghost predicate Valid()
      reads this, order
    {
      && order != [] && order[0] == root
      && Indexes(nodes, order)
      && Registry(View())
    }

    constructor (root: MctsNode)
      requires root.parentId.None? && root.depth == 0
      ensures Valid() && this.root == root && order == [root]
    {
      this.root := root;
      nodes, order := map[root.id := root], [root];
    }

    /** Adds a node under a registered parent. */
    method Register(node: MctsNode, ghost p: nat)
      requires Valid() && node.id !in nodes
      requires p < |order| && node.parentId == Some(order[p].id) && node.depth == order[p].depth + 1
      modifies this
      ensures Valid() && order == old(order) + [node]
      ensures View() == old(View()) + [node.Val()]
      ensures nodes == old(nodes)[node.id := node]
    {
      ghost var before := View();
      nodes := nodes[node.id := node];
      order := order + [node];
      assert View() == before + [node.Val()];
      forall i | 0 < i < |View()|
        ensures HasParent(View(), i)
      {
        assert ParentAt(View(), i, if i < |before| then Parent(before, i) else p);
      }
    }

    method GetPath(node: MctsNode, ghost i: nat) returns (path: seq<MctsNode>)
      requires Valid() && i < |order| && order[i] == node
      ensures path == At(order, Path(View(), i))
    {
      ghost var full := At(order, Path(View(), i));
      forall at | 0 <= at < |full|
        ensures LeadsUp(nodes, full, at)
      {
        PathLeadsUp(nodes, order, i, at);
      }
      path := WalkUp(nodes, node, full);
    }

    method GetHistory(node: MctsNode, ghost i: nat) returns (history: seq<(string, string)>)
      requires Valid() && i < |order| && order[i] == node
      ensures history == History(View(), Path(View(), i))
    {
      hide Registry, Indexes, History;
      var path := GetPath(node, i);
      ghost var full := Path(View(), i);
      history := [];
      NoHistory(View());
      for k := 0 to |path|
        invariant history == History(View(), full[..k])
      {
        HistorySnoc(View(), full[..k], full[k]);
        assert full[..k + 1] == full[..k] + [full[k]];
        if path[k].depth > 0 && path[k].prompt != "" {
          history := history + [(path[k].prompt, path[k].response)];
        }
      }
      assert full[..|path|] == full;
    }

    method ChildNodes(node: MctsNode, ghost p: nat) returns (cs: seq<MctsNode>)
      requires Valid() && p < |order| && order[p] == node
      ensures cs == At(order, Children(View(), p))
    {
      ghost var ns := View();
      cs := [];
      for k := 0 to |order|
        invariant cs == At(order, ChildrenBelow(ns, p, k))
      {
        if order[k].parentId == Some(node.id) {
          AtSnoc(order, ChildrenBelow(ns, p, k), k);
          cs := cs + [order[k]];
        }
      }
    }

    /** The child with the best UCT score, the first one on a tie. */
    method MaxUct(node: MctsNode, cs: seq<MctsNode>, explore: (nat, nat) -> real, ghost p: nat)
      returns (best: MctsNode)
      requires Valid() && CountsNest(View()) && p < |order| && order[p] == node
      requires cs == At(order, Children(View(), p)) && cs != []
      ensures best == order[BestChild(View(), p, explore)]
    {
      ghost var ns := View();
      forall k | 0 <= k < |cs|
        ensures cs[k].Val() == ns[Children(ns, p)[k]] && cs[k].visitCount <= node.visitCount
      {
        assert ChildOf(ns, p, Children(ns, p)[k]);
      }
      var keys := UctKeyList(cs, node.visitCount, explore);
      assert keys == UctKeys(ns, p, explore);
      var m := ArgMax(keys);
      best := cs[m];
    }

    /** Walks from the root to the leaf with the best UCT scores. */
    method SelectNode(maxDepth: nat, explore: (nat, nat) -> real) returns (node: MctsNode, ghost leaf: nat)
      requires Valid() && CountsNest(View())
      ensures leaf == Select(View(), 0, maxDepth, explore) && node == order[leaf]
    {
      hide Select, BestChild, Children;
      ghost var ns := View();
      node, leaf := root, 0;
      while node.isExpanded && node.depth < maxDepth
        invariant leaf < |order| && node == order[leaf]
        invariant Select(ns, leaf, maxDepth, explore) == Select(ns, 0, maxDepth, explore)
        decreases |order| - leaf
      {
        var children := ChildNodes(node, leaf);
        SelectUnfold(ns, leaf, maxDepth, explore);
        if children == [] { break; }
        node := MaxUct(node, children, explore, leaf);
        leaf := BestChild(ns, leaf, explore);
      }
      SelectUnfold(ns, leaf, maxDepth, explore);
    }
  }

  lemma SelectUnfold(ns: seq<Node>, from: nat, maxDepth: nat, explore: (nat, nat) -> real)
    requires Registry(ns) && CountsNest(ns) && from < |ns|
    ensures Select(ns, from, maxDepth, explore) ==
            if ns[from].expanded && ns[from].depth < maxDepth && Children(ns, from) != []
            then Select(ns, BestChild(ns, from, explore), maxDepth, explore) else from
  {
    hide BestChild;
  }

  method UctKeyList(cs: seq<MctsNode>, parentVisits: nat, explore: (nat, nat) -> real) returns (keys: seq<Key>)
    requires forall k :: 0 <= k < |cs| ==> cs[k].visitCount <= parentVisits
    ensures |keys| == |cs|
    ensures forall k :: 0 <= k < |cs| ==>
              keys[k] == UctScore(cs[k].visitCount, cs[k].totalReward, parentVisits, explore)
  {
    keys := [];
    for k := 0 to |cs|
      invariant |keys| == k
      invariant forall l :: 0 <= l < k ==>
                  keys[l] == UctScore(cs[l].visitCount, cs[l].totalReward, parentVisits, explore)
    {
      keys := keys + [UctScore(cs[k].visitCount, cs[k].totalReward, parentVisits, explore)];
    }
  }

  method AverageKeyList(cs: seq<MctsNode>) returns (keys: seq<Key>)
    requires forall k :: 0 <= k < |cs| ==> cs[k].visitCount > 0
    ensures |keys| == |cs|
    ensures forall k :: 0 <= k < |cs| ==> keys[k] == Finite(cs[k].totalReward / cs[k].visitCount as real)
  {
    keys := [];
    for k := 0 to |cs|
      invariant |keys| == k
      invariant forall l :: 0 <= l < k ==> keys[l] == Finite(cs[l].totalReward / cs[l].visitCount as real)
    {
      keys := keys + [Finite(cs[k].totalReward / cs[k].visitCount as real)];
    }
  }

  method VisitedNodes(order: seq<MctsNode>) returns (cs: seq<MctsNode>)
    ensures cs == At(order, VisitedBelow(Vals(order), |order|))
  {
    ghost var ns := Vals(order);
    cs := [];
    for k := 0 to |order|
      invariant cs == At(order, VisitedBelow(ns, k))
    {
      if order[k].depth > 0 && order[k].visitCount > 0 {
        AtSnoc(order, VisitedBelow(ns, k), k);
        cs := cs + [order[k]];
      }
    }
  }

  /** max() over the visited non-root nodes of a list by average reward; null when there is none. */
  method FirstBestAverage(order: seq<MctsNode>) returns (best: MctsNode?)
    requires order != []
    ensures best == if VisitedBelow(Vals(order), |order|) == [] then null else order[BestLeaf(Vals(order))]
  {
    hide FirstMax, VisitedBelow;
    ghost var ns := Vals(order);
    ghost var vs := VisitedBelow(ns, |ns|);
    var candidates := VisitedNodes(order);
    if candidates == [] {
      return null;
    }
    assert forall k :: 0 <= k < |vs| ==> candidates[k].Val() == ns[vs[k]];
    var keys := AverageKeyList(candidates);
    assert keys == AverageKeys(ns, vs);
    var m := ArgMax(keys);
    best := candidates[m];
  }

  method Visit(node: MctsNode, reward: real, ghost order: seq<MctsNode>, ghost c: nat)
    requires c < |order| && order[c] == node
    requires forall k :: 0 <= k < |order| && k != c ==> order[k] != node
    modifies node
    ensures Vals(order) == old(Vals(order))[c := Bump(old(Vals(order))[c], reward)]
  {
    node.visitCount := node.visitCount + 1;
    node.totalReward := node.totalReward + reward;
  }

  /** Adds a reward and a visit to a node and to every ancestor. */
  method Backpropagate(tree: Tree, node: MctsNode, reward: real, ghost i: nat)
    requires tree.Valid() && i < |tree.order| && tree.order[i] == node
    modifies tree.order
    ensures tree.Valid()
    ensures tree.View() == Backprop(old(tree.View()), i, reward)
  {
    var current: MctsNode? := node;
    ghost var c: nat := i;
    while current != null
      invariant tree.Valid()
      invariant current != null ==> c < |tree.order| && current == tree.order[c]
      invariant (if current == null then tree.View() else Backprop(tree.View(), c, reward))
             == Backprop(old(tree.View()), i, reward)
      decreases current != null, c
    {
      ghost var before := tree.View();
      OthersDiffer(tree, c);
      Visit(current, reward, tree.order, c);
      LinksKeepRegistry(before, tree.View());
      if c > 0 {
        LookupParent(tree.nodes, tree.order, c);
        c := Parent(before, c);
      }
      current := if current.parentId.Some? && current.parentId.value in tree.nodes
                 then tree.nodes[current.parentId.value] else null;
    }
  }

  lemma OthersDiffer(tree: Tree, c: nat)
    requires tree.Valid() && c < |tree.order|
    ensures forall k :: 0 <= k < |tree.order| && k != c ==> tree.order[k] != tree.order[c]
  {
    forall k | 0 <= k < |tree.order| && k != c
      ensures tree.order[k] != tree.order[c]
    {
      assert tree.View()[k].id != tree.View()[c].id;
    }
  }
}
