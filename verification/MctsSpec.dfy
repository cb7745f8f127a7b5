/** The GS-MCTS search tree as a sequence of node values in registration order, the four
    phases of one simulation as functions on it, and the laws a whole search keeps. */
module MctsSpec {
  import opened Common

  type Id = nat

  datatype Node = Node(
    id: Id, parentId: Option<Id>, depth: nat, strategy: string, prompt: string, response: string,
    visits: nat, total: real, score: real, terminal: bool, expanded: bool)

  // ---------- shape of the registry ----------

  predicate ChildOf(ns: seq<Node>, p: nat, j: nat)
    requires p < |ns| && j < |ns|
  {
    ns[j].parentId == Some(ns[p].id)
  }

  predicate DistinctIds(ns: seq<Node>) {
    forall i, j :: 0 <= i < j < |ns| ==> ns[i].id != ns[j].id
  }

  ghost predicate ParentAt(ns: seq<Node>, i: nat, p: nat)
    requires i < |ns|
  {
    p < i && ChildOf(ns, p, i) && ns[i].depth == ns[p].depth + 1
  }

  ghost predicate HasParent(ns: seq<Node>, i: nat)
    requires i < |ns|
  {
    exists p: nat :: ParentAt(ns, i, p)
  }

  /** Ids are distinct, the root comes first, and every other node's parent was registered
      before it and is exactly one level up. */
  ghost predicate Registry(ns: seq<Node>) {
    && |ns| > 0
    && ns[0].parentId.None? && ns[0].depth == 0
    && DistinctIds(ns)
    && forall i :: 0 < i < |ns| ==> HasParent(ns, i)
  }

  ghost function Parent(ns: seq<Node>, i: nat): (p: nat)
    requires Registry(ns) && 0 < i < |ns|
    ensures ParentAt(ns, i, p)
  {
    assert HasParent(ns, i);
    var p: nat :| ParentAt(ns, i, p);
    p
  }

  lemma ParentUnique(ns: seq<Node>, i: nat, p: nat)
    requires Registry(ns) && 0 < i < |ns| && p < |ns| && ChildOf(ns, p, i)
    ensures p == Parent(ns, i)
  {
    var q := Parent(ns, i);
  }

  /** Everything backpropagation leaves alone. */
  ghost predicate SameShape(a: seq<Node>, b: seq<Node>) {
    && |a| == |b|
    && forall i :: 0 <= i < |a| ==> b[i] == a[i].(visits := b[i].visits, total := b[i].total)
  }

  ghost predicate SameLinks(a: seq<Node>, b: seq<Node>) {
    && |a| == |b|
    && forall i :: 0 <= i < |a| ==>
         b[i].id == a[i].id && b[i].parentId == a[i].parentId && b[i].depth == a[i].depth
  }

  lemma LinksKeepRegistry(a: seq<Node>, b: seq<Node>)
    requires Registry(a) && SameLinks(a, b)
    ensures Registry(b)
    ensures forall i :: 0 < i < |a| ==> Parent(b, i) == Parent(a, i)
  {
    forall i | 0 < i < |b|
      ensures HasParent(b, i)
    {
      assert ParentAt(b, i, Parent(a, i));
    }
    forall i | 0 < i < |a|
      ensures Parent(b, i) == Parent(a, i)
    {
      ParentUnique(b, i, Parent(a, i));
    }
  }

  /** Root-to-node path, the walk of MCTSTree.get_path. */
  ghost function Path(ns: seq<Node>, i: nat): (path: seq<nat>)
    requires Registry(ns) && i < |ns|
    ensures path != [] && path[0] == 0 && path[|path| - 1] == i
    ensures forall k :: 0 <= k < |path| ==> path[k] < |ns| && path[k] <= i
    ensures forall k :: 0 <= k < |path| ==> ns[path[k]].depth == k
    decreases i
  {
    if i == 0 then [0] else Path(ns, Parent(ns, i)) + [i]
  }

  /** Consecutive nodes of a path are parent and child. */
  lemma {:induction false} PathLink(ns: seq<Node>, i: nat, k: nat)
    requires Registry(ns) && i < |ns| && 0 < k < |Path(ns, i)|
    ensures var path := Path(ns, i);
            path[k] > 0 && path[k - 1] == Parent(ns, path[k])
    decreases i
  {
    if i > 0 && k < |Path(ns, i)| - 1 { PathLink(ns, Parent(ns, i), k); }
  }

  // ---------- selection ----------

  function ChildrenBelow(ns: seq<Node>, p: nat, n: nat): (cs: seq<nat>)
    requires p < |ns| && n <= |ns|
    ensures forall k :: 0 <= k < |cs| ==> cs[k] < n && ChildOf(ns, p, cs[k])
    ensures forall k, l :: 0 <= k < l < |cs| ==> cs[k] < cs[l]
  {
    if n == 0 then []
    else if ChildOf(ns, p, n - 1) then ChildrenBelow(ns, p, n - 1) + [n - 1]
    else ChildrenBelow(ns, p, n - 1)
  }

  lemma {:induction false} ChildListed(ns: seq<Node>, p: nat, n: nat, j: nat)
    requires p < |ns| && j < n <= |ns| && ChildOf(ns, p, j)
    ensures j in ChildrenBelow(ns, p, n)
  {
    if j < n - 1 { ChildListed(ns, p, n - 1, j); }
  }

  function Children(ns: seq<Node>, p: nat): seq<nat>
    requires p < |ns|
  {
    ChildrenBelow(ns, p, |ns|)
  }

  /** UCT score. The exploration term c * sqrt(ln(parentVisits) / visits) is any function of
      the two counts; the precondition is what keeps its logarithm non-negative. */
  function UctScore(visits: nat, total: real, parentVisits: nat, explore: (nat, nat) -> real): Key
    requires visits <= parentVisits
  {
    if visits == 0 then Infinite else Finite(total / visits as real + explore(parentVisits, visits))
  }

  ghost predicate CountsNest(ns: seq<Node>) {
    forall p, j :: 0 <= p < |ns| && 0 <= j < |ns| && ChildOf(ns, p, j) ==> ns[j].visits <= ns[p].visits
  }

  ghost function UctKeys(ns: seq<Node>, p: nat, explore: (nat, nat) -> real): (keys: seq<Key>)
    requires p < |ns| && CountsNest(ns)
    ensures |keys| == |Children(ns, p)|
  {
    var cs := Children(ns, p);
    seq(|cs|, k requires 0 <= k < |cs| => UctScore(ns[cs[k]].visits, ns[cs[k]].total, ns[p].visits, explore))
  }

  ghost function BestChild(ns: seq<Node>, p: nat, explore: (nat, nat) -> real): (c: nat)
    requires Registry(ns) && p < |ns| && CountsNest(ns) && Children(ns, p) != []
    ensures p < c < |ns| && ChildOf(ns, p, c)
  {
    var c := Children(ns, p)[FirstMax(UctKeys(ns, p, explore))];
    ParentUnique(ns, c, p);
    c
  }

  /** The leaf that select_mcts_node reaches when its walk stands at node `from`. */
  ghost function Select(ns: seq<Node>, from: nat, maxDepth: nat, explore: (nat, nat) -> real): (leaf: nat)
    requires Registry(ns) && CountsNest(ns) && from < |ns|
    ensures from <= leaf < |ns|
    decreases |ns| - from
  {
    if ns[from].expanded && ns[from].depth < maxDepth && Children(ns, from) != [] then
      Select(ns, BestChild(ns, from, explore), maxDepth, explore)
    else from
  }

  // ---------- backpropagation ----------

  function Bump(n: Node, reward: real): Node {
    n.(visits := n.visits + 1, total := n.total + reward)
  }

  ghost function Backprop(ns: seq<Node>, i: nat, reward: real): (out: seq<Node>)
    requires Registry(ns) && i < |ns|
    decreases i
  {
    var bumped := ns[i := Bump(ns[i], reward)];
    if i == 0 then bumped
    else
      assert Registry(bumped) by { LinksKeepRegistry(ns, bumped); }
      Backprop(bumped, Parent(ns, i), reward)
  }

  // ---------- conservation ----------

  /** The first node registered under its parent: the child that the expansion rolls out. */
  predicate FirstBorn(ns: seq<Node>, i: nat)
    requires i < |ns|
  {
    ns[i].parentId.Some? && forall j :: 0 <= j < i ==> ns[j].parentId != ns[i].parentId
  }

  function ChildVisits(ns: seq<Node>, p: Id, n: nat): nat
    requires n <= |ns|
  {
    if n == 0 then 0
    else ChildVisits(ns, p, n - 1) + if ns[n - 1].parentId == Some(p) then ns[n - 1].visits else 0
  }

  function ChildTotals(ns: seq<Node>, p: Id, n: nat): real
    requires n <= |ns|
  {
    if n == 0 then 0.0
    else ChildTotals(ns, p, n - 1) + if ns[n - 1].parentId == Some(p) then ns[n - 1].total else 0.0
  }

  /** Node i is accounted for once `owedVisits` and `owedReward` are added to it. */
  ghost predicate Balanced(ns: seq<Node>, i: nat, owedVisits: nat, owedReward: real)
    requires i < |ns|
  {
    && ns[i].visits + owedVisits == (if FirstBorn(ns, i) then 1 else 0) + ChildVisits(ns, ns[i].id, |ns|)
    && ns[i].total + owedReward == ns[i].score + ChildTotals(ns, ns[i].id, |ns|)
  }

  /** A visit is either a node's own rollout or a visit to one of its children, and its
      total reward is its own rollout's reward plus its children's totals. */
  ghost predicate Conserved(ns: seq<Node>) {
    forall i :: 0 <= i < |ns| ==> Balanced(ns, i, 0, 0.0)
  }

  ghost predicate BalancedExcept(ns: seq<Node>, i: nat, reward: real)
    requires i < |ns|
  {
    && Balanced(ns, i, 1, reward)
    && forall j :: 0 <= j < |ns| && j != i ==> Balanced(ns, j, 0, 0.0)
  }

  lemma {:induction false} SumsOfBump(ns: seq<Node>, i: nat, reward: real, p: Id, n: nat)
    requires i < |ns| && n <= |ns|
    ensures var bumped := ns[i := Bump(ns[i], reward)];
            var hit := i < n && ns[i].parentId == Some(p);
            && ChildVisits(bumped, p, n) == ChildVisits(ns, p, n) + (if hit then 1 else 0)
            && ChildTotals(bumped, p, n) == ChildTotals(ns, p, n) + (if hit then reward else 0.0)
  {
    if n == 0 {
    } else {
      SumsOfBump(ns, i, reward, p, n - 1);
    }
  }

  lemma BumpAccounts(ns: seq<Node>, i: nat, reward: real, j: nat)
    requires Registry(ns) && i < |ns| && j < |ns| && BalancedExcept(ns, i, reward)
    requires Registry(ns[i := Bump(ns[i], reward)])
    ensures var bumped := ns[i := Bump(ns[i], reward)];
            if i > 0 && j == Parent(ns, i) then Balanced(bumped, j, 1, reward) else Balanced(bumped, j, 0, 0.0)
  {
    var bumped := ns[i := Bump(ns[i], reward)];
    SumsOfBump(ns, i, reward, ns[j].id, |ns|);
    assert forall k :: 0 <= k < |ns| ==> bumped[k].parentId == ns[k].parentId;
    assert j != i ==> Balanced(ns, j, 0, 0.0);
    assert i > 0 ==> ChildOf(ns, Parent(ns, i), i);
    if i > 0 && ChildOf(ns, j, i) { ParentUnique(ns, i, j); }
  }

  /** One step of the upward walk moves the imbalance from a node to its parent. */
  lemma BumpMovesDebt(ns: seq<Node>, i: nat, reward: real)
    requires Registry(ns) && i < |ns| && BalancedExcept(ns, i, reward)
    ensures var bumped := ns[i := Bump(ns[i], reward)];
            && Registry(bumped) && SameShape(ns, bumped)
            && (i == 0 ==> Conserved(bumped))
            && (i > 0 ==> BalancedExcept(bumped, Parent(ns, i), reward))
  {
    var bumped := ns[i := Bump(ns[i], reward)];
    LinksKeepRegistry(ns, bumped);
    if i > 0 { BumpAccounts(ns, i, reward, Parent(ns, i)); }
    forall j | 0 <= j < |ns| && !(i > 0 && j == Parent(ns, i))
      ensures Balanced(bumped, j, 0, 0.0)
    {
      BumpAccounts(ns, i, reward, j);
    }
  }

  lemma {:induction false} BackpropConserves(ns: seq<Node>, i: nat, reward: real)
    requires Registry(ns) && i < |ns| && BalancedExcept(ns, i, reward)
    ensures var out := Backprop(ns, i, reward);
            && Conserved(out) && Registry(out) && SameShape(ns, out)
            && out[0].visits == ns[0].visits + 1
            && forall j :: 0 <= j < |ns| ==> out[j].visits >= ns[j].visits
    decreases i
  {
    BumpMovesDebt(ns, i, reward);
    if i == 0 {
    } else {
      BackpropConserves(ns[i := Bump(ns[i], reward)], Parent(ns, i), reward);
    }
  }

  // ---------- fairness among siblings ----------

  predicate Siblings(ns: seq<Node>, i: nat, j: nat)
    requires i < |ns| && j < |ns|
  {
    ns[i].parentId.Some? && ns[i].parentId == ns[j].parentId
  }

  /** No child gets a second visit before all its siblings have had a first. */
  ghost predicate RoundRobin(ns: seq<Node>) {
    forall i, j :: 0 <= i < |ns| && 0 <= j < |ns| && Siblings(ns, i, j) && ns[i].visits >= 2 ==> ns[j].visits >= 1
  }

  /** Visiting node i now is fair: it is new, or all its siblings have been visited. */
  ghost predicate Fair(ns: seq<Node>, i: nat)
    requires i < |ns|
  {
    ns[i].visits >= 1 ==> forall j :: 0 <= j < |ns| && Siblings(ns, i, j) ==> ns[j].visits >= 1
  }

  ghost predicate FairChain(ns: seq<Node>, i: nat)
    requires Registry(ns) && i < |ns|
    decreases i
  {
    i == 0 || (Fair(ns, i) && FairChain(ns, Parent(ns, i)))
  }

  lemma BestChildFair(ns: seq<Node>, p: nat, explore: (nat, nat) -> real)
    requires Registry(ns) && p < |ns| && CountsNest(ns) && Children(ns, p) != []
    ensures Fair(ns, BestChild(ns, p, explore))
  {
    hide BestChild, UctKeys, FirstMax, Children, ChildrenBelow;
    var c := BestChild(ns, p, explore);
    forall j | 0 <= j < |ns| && Siblings(ns, c, j) && ns[c].visits >= 1
      ensures ns[j].visits >= 1
    {
      ChildInList(ns, p, j);
      NewChildFirst(ns, p, explore, j);
    }
  }

  lemma ChildInList(ns: seq<Node>, p: nat, j: nat)
    requires p < |ns| && j < |ns| && ChildOf(ns, p, j)
    ensures j in Children(ns, p)
  {
    ChildListed(ns, p, |ns|, j);
  }

  /** A visited child is picked only when no child is new. */
  lemma NewChildFirst(ns: seq<Node>, p: nat, explore: (nat, nat) -> real, j: nat)
    requires Registry(ns) && p < |ns| && CountsNest(ns) && j < |ns| && j in Children(ns, p)
    requires ns[BestChild(ns, p, explore)].visits >= 1
    ensures ns[j].visits >= 1
  {
    hide FirstMax, Children, ChildrenBelow;
    var cs, keys := Children(ns, p), UctKeys(ns, p, explore);
    var k :| 0 <= k < |cs| && cs[k] == j;
    assert !keys[FirstMax(keys)].Below(keys[k]);
  }

  lemma {:induction false} SelectFair(ns: seq<Node>, from: nat, maxDepth: nat, explore: (nat, nat) -> real)
    requires Registry(ns) && CountsNest(ns) && from < |ns| && FairChain(ns, from)
    ensures FairChain(ns, Select(ns, from, maxDepth, explore))
    decreases |ns| - from
  {
    if ns[from].expanded && ns[from].depth < maxDepth && Children(ns, from) != [] {
      var c := BestChild(ns, from, explore);
      BestChildFair(ns, from, explore);
      ParentUnique(ns, c, from);
      SelectFair(ns, c, maxDepth, explore);
    }
  }

  lemma {:induction false} BumpKeepsFairChain(ns: seq<Node>, i: nat, reward: real, k: nat)
    requires Registry(ns) && k < i < |ns| && FairChain(ns, k)
    requires Registry(ns[i := Bump(ns[i], reward)])
    ensures FairChain(ns[i := Bump(ns[i], reward)], k)
    decreases k
  {
    var bumped := ns[i := Bump(ns[i], reward)];
    if k == 0 {
    } else {
      LinksKeepRegistry(ns, bumped);
      forall j | 0 <= j < |ns| && Siblings(bumped, k, j) && bumped[k].visits >= 1
        ensures bumped[j].visits >= 1
      {
        assert Siblings(ns, k, j);
      }
      BumpKeepsFairChain(ns, i, reward, Parent(ns, k));
    }
  }

  lemma {:induction false} BackpropRoundRobin(ns: seq<Node>, i: nat, reward: real)
    requires Registry(ns) && i < |ns| && RoundRobin(ns) && FairChain(ns, i)
    ensures RoundRobin(Backprop(ns, i, reward))
    decreases i
  {
    var bumped := ns[i := Bump(ns[i], reward)];
    forall a, b | 0 <= a < |ns| && 0 <= b < |ns| && Siblings(bumped, a, b) && bumped[a].visits >= 2
      ensures bumped[b].visits >= 1
    {
      assert Siblings(ns, a, b);
    }
    if i == 0 {
    } else {
      LinksKeepRegistry(ns, bumped);
      BumpKeepsFairChain(ns, i, reward, Parent(ns, i));
      BackpropRoundRobin(bumped, Parent(ns, i), reward);
    }
  }

  // ---------- expansion ----------

  /** One strategy branch: what the attacker and the target answered, and what it cost. */
  datatype Branch = Branch(id: Id, strategy: string, prompt: string, response: string,
                           attackerTokens: nat, targetTokens: nat)

  function NewNode(parent: Node, b: Branch): Node {
    Node(b.id, Some(parent.id), parent.depth + 1, b.strategy, b.prompt, b.response, 0, 0.0, 0.0, false, false)
  }

  function Grown(ns: seq<Node>, leaf: nat, bs: seq<Branch>): (out: seq<Node>)
    requires leaf < |ns|
    ensures |out| == |ns| + |bs|
    ensures forall k :: 0 <= k < |ns| ==> out[k] == if k == leaf then ns[k].(expanded := true) else ns[k]
    ensures forall k :: |ns| <= k < |out| ==> out[k] == NewNode(ns[leaf], bs[k - |ns|])
  {
    ns[leaf := ns[leaf].(expanded := true)] + seq(|bs|, k requires 0 <= k < |bs| => NewNode(ns[leaf], bs[k]))
  }

  ghost predicate FreshIds(ns: seq<Node>, bs: seq<Branch>) {
    && (forall k, i :: 0 <= k < |bs| && 0 <= i < |ns| ==> bs[k].id != ns[i].id)
    && (forall k, l :: 0 <= k < l < |bs| ==> bs[k].id != bs[l].id)
  }

  /** Only nodes that were expanded have children. */
  ghost predicate ChildrenExpanded(ns: seq<Node>) {
    forall p, j :: 0 <= p < |ns| && 0 <= j < |ns| && ChildOf(ns, p, j) ==> ns[p].expanded
  }

  ghost predicate DepthCapped(ns: seq<Node>, maxDepth: nat) {
    forall i :: 0 <= i < |ns| ==> ns[i].depth <= maxDepth
  }

  /** What holds of the tree between any two simulations. */
  ghost predicate Inv(ns: seq<Node>, maxDepth: nat) {
    && Registry(ns) && Conserved(ns) && RoundRobin(ns) && ChildrenExpanded(ns) && DepthCapped(ns, maxDepth)
  }

  lemma {:induction false} SumCoversChild(ns: seq<Node>, p: Id, n: nat, j: nat)
    requires j < n <= |ns| && ns[j].parentId == Some(p)
    ensures ns[j].visits <= ChildVisits(ns, p, n)
  {
    if j < n - 1 { SumCoversChild(ns, p, n - 1, j); }
  }

  /** The logarithm's domain: a parent has at least as many visits as any of its children. */
  lemma ConservedCountsNest(ns: seq<Node>)
    requires Conserved(ns)
    ensures CountsNest(ns)
  {
    forall p, j | 0 <= p < |ns| && 0 <= j < |ns| && ChildOf(ns, p, j)
      ensures ns[j].visits <= ns[p].visits
    {
      SumCoversChild(ns, ns[p].id, |ns|, j);
      assert Balanced(ns, p, 0, 0.0);
    }
  }

  lemma {:induction false} SumsUnmoved(a: seq<Node>, b: seq<Node>, p: Id, n: nat)
    requires |a| <= |b| && n <= |b|
    requires forall k :: 0 <= k < |a| ==>
               b[k].parentId == a[k].parentId && b[k].visits == a[k].visits && b[k].total == a[k].total
    requires forall k :: |a| <= k < |b| ==> b[k].visits == 0 && b[k].total == 0.0
    ensures ChildVisits(b, p, n) == ChildVisits(a, p, Min(n, |a|))
    ensures ChildTotals(b, p, n) == ChildTotals(a, p, Min(n, |a|))
  {
    if n == 0 {
    } else {
      SumsUnmoved(a, b, p, n - 1);
    }
  }

  lemma {:induction false} SumsOfStranger(ns: seq<Node>, p: Id, n: nat)
    requires n <= |ns| && forall k :: 0 <= k < n ==> ns[k].parentId != Some(p)
    ensures ChildVisits(ns, p, n) == 0 && ChildTotals(ns, p, n) == 0.0
  {
    if n == 0 {
    } else {
      SumsOfStranger(ns, p, n - 1);
    }
  }

  lemma GrownRegistry(ns: seq<Node>, leaf: nat, bs: seq<Branch>)
    requires Registry(ns) && leaf < |ns| && FreshIds(ns, bs)
    ensures Registry(Grown(ns, leaf, bs))
    ensures forall i :: 0 < i < |ns| ==> Parent(Grown(ns, leaf, bs), i) == Parent(ns, i)
    ensures forall i :: |ns| <= i < |ns| + |bs| ==> Parent(Grown(ns, leaf, bs), i) == leaf
  {
    var out := Grown(ns, leaf, bs);
    forall i | 0 < i < |out|
      ensures HasParent(out, i)
    {
      assert ParentAt(out, i, if i < |ns| then Parent(ns, i) else leaf);
    }
    forall i | 0 < i < |out|
      ensures Parent(out, i) == if i < |ns| then Parent(ns, i) else leaf
    {
      ParentUnique(out, i, if i < |ns| then Parent(ns, i) else leaf);
    }
  }

  /** Giving the first new child its rollout's reward leaves exactly that child unpaid. */
  lemma GrownOwesFirstChild(ns: seq<Node>, leaf: nat, bs: seq<Branch>, reward: real)
    requires Registry(ns) && Conserved(ns) && leaf < |ns| && FreshIds(ns, bs) && Children(ns, leaf) == []
    ensures var out := Grown(ns, leaf, bs);
            && (bs == [] ==> Conserved(out))
            && (bs != [] ==> BalancedExcept(out[|ns| := out[|ns|].(score := reward)], |ns|, reward))
  {
    var grown := Grown(ns, leaf, bs);
    var out := if bs == [] then grown else grown[|ns| := grown[|ns|].(score := reward)];
    GrownRegistry(ns, leaf, bs);
    forall j | 0 <= j < |ns|
      ensures Balanced(out, j, 0, 0.0)
    {
      assert Balanced(ns, j, 0, 0.0);
      SumsUnmoved(ns, out, ns[j].id, |out|);
      assert forall k :: 0 <= k <= j ==> out[k].parentId == ns[k].parentId;
    }
    if bs != [] { NewcomerAccounts(ns, leaf, bs, out, |ns|, reward); }
    forall j | |ns| < j < |out|
      ensures Balanced(out, j, 0, 0.0)
    {
      NewcomerAccounts(ns, leaf, bs, out, j, reward);
    }
  }

  lemma NewcomerAccounts(ns: seq<Node>, leaf: nat, bs: seq<Branch>, out: seq<Node>, j: nat, reward: real)
    requires Registry(ns) && leaf < |ns| && FreshIds(ns, bs) && Children(ns, leaf) == []
    requires bs != [] && out == Grown(ns, leaf, bs)[|ns| := NewNode(ns[leaf], bs[0]).(score := reward)]
    requires |ns| <= j < |out|
    ensures Balanced(out, j, if j == |ns| then 1 else 0, if j == |ns| then reward else 0.0)
  {
    forall k | 0 <= k < |out|
      ensures out[k].parentId != Some(out[j].id)
      ensures k < |ns| ==> out[k].parentId != Some(ns[leaf].id)
    {
      if 0 < k < |ns| {
        assert ParentAt(ns, k, Parent(ns, k));
        if ChildOf(ns, leaf, k) { ChildListed(ns, leaf, |ns|, k); }
      }
    }
    SumsOfStranger(out, out[j].id, |out|);
    assert j > |ns| ==> out[|ns|].parentId == out[j].parentId;
  }

  lemma {:induction false} GrownKeepsFairChain(ns: seq<Node>, leaf: nat, bs: seq<Branch>, out: seq<Node>, k: nat)
    requires Registry(ns) && leaf < |ns| && FreshIds(ns, bs) && Children(ns, leaf) == [] && bs != []
    requires Registry(out) && |out| == |ns| + |bs|
    requires var grown := Grown(ns, leaf, bs);
             forall i :: 0 <= i < |out| ==> out[i].visits == grown[i].visits && out[i].parentId == grown[i].parentId
    requires forall i :: 0 < i < |ns| ==> Parent(out, i) == Parent(ns, i)
    requires k < |ns| && FairChain(ns, k)
    ensures FairChain(out, k)
    decreases k
  {
    if k == 0 {
    } else {
      forall j | 0 <= j < |out| && Siblings(out, k, j) && out[k].visits >= 1
        ensures out[j].visits >= 1
      {
        if ChildOf(ns, leaf, k) { ChildListed(ns, leaf, |ns|, k); }
        assert j < |ns| && Siblings(ns, k, j);
      }
      GrownKeepsFairChain(ns, leaf, bs, out, Parent(ns, k));
    }
  }

  // ---------- rollout, simulation, run ----------

  datatype Exchange = Exchange(prompt: string, response: string, attackerTokens: nat, targetTokens: nat)

  datatype Config = Config(maxDepth: nat, branching: nat, rolloutTurns: nat, budget: int,
                           explore: (nat, nat) -> real, judge: (string, string) -> real)

  datatype SimInput = SimInput(branches: seq<Branch>, rollout: seq<Exchange>)

  datatype Search = Search(nodes: seq<Node>, tokens: nat)

  ghost function History(ns: seq<Node>, path: seq<nat>): seq<(string, string)>
    requires forall k :: 0 <= k < |path| ==> path[k] < |ns|
  {
    if path == [] then []
    else
      var i := path[|path| - 1];
      History(ns, path[..|path| - 1]) +
      if ns[i].depth > 0 && ns[i].prompt != "" then [(ns[i].prompt, ns[i].response)] else []
  }

  lemma NoHistory(ns: seq<Node>)
    ensures History(ns, []) == []
  {
  }

  lemma HistorySnoc(ns: seq<Node>, path: seq<nat>, i: nat)
    requires i < |ns| && forall k :: 0 <= k < |path| ==> path[k] < |ns|
    ensures History(ns, path + [i]) ==
            History(ns, path) + if ns[i].depth > 0 && ns[i].prompt != "" then [(ns[i].prompt, ns[i].response)] else []
  {
    assert (path + [i])[..|path|] == path;
  }

  function Dialogue(xs: seq<Exchange>): (d: seq<(string, string)>)
    ensures |d| == |xs|
  {
    seq(|xs|, k requires 0 <= k < |xs| => (xs[k].prompt, xs[k].response))
  }

  /** The judge scores the last exchange of the simulated conversation. */
  function Reward(judge: (string, string) -> real, history: seq<(string, string)>): real {
    if history == [] then 0.0 else judge(history[|history| - 1].0, history[|history| - 1].1)
  }

  function BranchCost(bs: seq<Branch>): nat {
    if bs == [] then 0
    else BranchCost(bs[..|bs| - 1]) + bs[|bs| - 1].attackerTokens + bs[|bs| - 1].targetTokens
  }

  function RolloutCost(xs: seq<Exchange>): nat {
    if xs == [] then 0
    else RolloutCost(xs[..|xs| - 1]) + xs[|xs| - 1].attackerTokens + xs[|xs| - 1].targetTokens
  }

  ghost predicate Ready(cfg: Config, st: Search) {
    Inv(st.nodes, cfg.maxDepth) && CountsNest(st.nodes)
  }

  ghost function SelectedLeaf(cfg: Config, st: Search): (leaf: nat)
    requires Ready(cfg, st)
    ensures leaf < |st.nodes|
  {
    Select(st.nodes, 0, cfg.maxDepth, cfg.explore)
  }

  /** The selected leaf is above the depth cap, so the simulation will expand it. */
  ghost predicate Expands(cfg: Config, st: Search)
    requires Ready(cfg, st)
  {
    st.nodes[SelectedLeaf(cfg, st)].depth < cfg.maxDepth
  }

  /** The replies a simulation receives: one branch per sampled strategy, each with a new id,
      and as many rollout turns as the turn limit and the depth cap leave room for. */
  ghost predicate Fits(cfg: Config, st: Search, input: SimInput)
    requires Ready(cfg, st)
  {
    if !Expands(cfg, st) then input.branches == [] && input.rollout == []
    else
      && |input.branches| == cfg.branching
      && FreshIds(st.nodes, input.branches)
      && |input.rollout| == (if cfg.branching == 0 then 0
           else Min(cfg.rolloutTurns, cfg.maxDepth - st.nodes[SelectedLeaf(cfg, st)].depth - 1))
  }

  /** The tree with the first new child scored, and the reward it was scored with. */
  ghost function Simulated(cfg: Config, ns: seq<Node>, leaf: nat, input: SimInput): (r: (seq<Node>, real))
    requires Registry(ns) && leaf < |ns| && FreshIds(ns, input.branches) && input.branches != []
    ensures Registry(r.0)
    ensures var grown := Grown(ns, leaf, input.branches); r.0 == grown[|ns| := grown[|ns|].(score := r.1)]
  {
    var grown := Grown(ns, leaf, input.branches);
    assert Registry(grown) by { GrownRegistry(ns, leaf, input.branches); }
    var reward := Reward(cfg.judge, History(grown, Path(grown, |ns|)) + Dialogue(input.rollout));
    var scored := grown[|ns| := grown[|ns|].(score := reward)];
    assert Registry(scored) by { LinksKeepRegistry(grown, scored); }
    (scored, reward)
  }

  /** One iteration of the simulation loop. */
  ghost function SimStep(cfg: Config, st: Search, input: SimInput): Search
    requires Ready(cfg, st) && Fits(cfg, st, input)
  {
    var leaf := SelectedLeaf(cfg, st);
    if !Expands(cfg, st) then
      st.(nodes := st.nodes[leaf := st.nodes[leaf].(terminal := true)])
    else if input.branches == [] then
      st.(nodes := Grown(st.nodes, leaf, []))
    else
      var (scored, reward) := Simulated(cfg, st.nodes, leaf, input);
      Search(Backprop(scored, |st.nodes|, reward), st.tokens + BranchCost(input.branches) + RolloutCost(input.rollout))
  }
}
