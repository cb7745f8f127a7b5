/** The TAP search as it runs: shared node objects that each stage marks in place, tied level by
    level to TapSpec, and the trajectory it reports. */
module Tap {
  import opened Common
  import opened TapSpec

  class AttackNode {
    const id: Id
    const parentId: Option<Id>
    const depth: nat
    const prompt: string
    var response: string
    var score: real
    var pruned: bool
    var reason: string

    constructor (id: Id, parentId: Option<Id>, depth: nat, prompt: string, response: string, score: real)
      ensures Val() == Node(id, parentId, depth, prompt, response, score, false, "")
    {
      this.id, this.parentId, this.depth, this.prompt := id, parentId, depth, prompt;
      this.response, this.score, pruned, reason := response, score, false, "";
    }

    ghost function Val(): Node
      reads this
    {
      Node(id, parentId, depth, prompt, response, score, pruned, reason)
    }
  }

  ghost function Vals(ns: seq<AttackNode>): (vs: seq<Node>)
    reads ns
    ensures |vs| == |ns|
    ensures forall i :: 0 <= i < |ns| ==> vs[i] == ns[i].Val()
  {
    seq(|ns|, i requires 0 <= i < |ns| reads ns => ns[i].Val())
  }

  ghost function At(ns: seq<AttackNode>, ix: seq<nat>): (out: seq<AttackNode>)
    requires InRange(ix, |ns|)
    ensures |out| == |ix|
    ensures forall k :: 0 <= k < |ix| ==> out[k] == ns[ix[k]]
  {
    seq(|ix|, k requires 0 <= k < |ix| => ns[ix[k]])
  }

  ghost predicate DistinctNodes(ns: seq<AttackNode>) {
    forall i, j :: 0 <= i < j < |ns| ==> ns[i] != ns[j]
  }

  /** What an attacker or a target answers: anything. */
  method Send() returns (reply: string) {
    reply := *;
  }

  method Prune(node: AttackNode, reason: string, ghost nodes: seq<AttackNode>, ghost i: nat)
    requires DistinctNodes(nodes) && i < |nodes| && nodes[i] == node
    modifies node
    ensures Vals(nodes) == old(Vals(nodes))[i := old(node.Val()).(pruned := true, reason := reason)]
  {
    node.pruned, node.reason := true, reason;
  }

  // ---------- branching ----------

  predicate NewNode(n: Node, id: Id) {
    n.id == id && n.response == "" && n.score == 0.0 && !n.pruned && n.reason == ""
  }

  predicate AllNew(ns: seq<Node>, first: Id) {
    forall i :: 0 <= i < |ns| ==> NewNode(ns[i], first + i)
  }

  predicate ChildrenOf(ns: seq<Node>, parent: Id, depth: nat) {
    forall b :: 0 <= b < |ns| ==> ns[b].parentId == Some(parent) && ns[b].depth == depth
  }

  method BranchLeaf(leaf: AttackNode, depth: nat, branching: nat, first: Id) returns (nodes: seq<AttackNode>)
    ensures |nodes| == branching && DistinctNodes(nodes) && fresh(nodes)
    ensures AllNew(Vals(nodes), first) && ChildrenOf(Vals(nodes), leaf.id, depth)
  {
    nodes := [];
    for b := 0 to branching
      invariant |nodes| == b && DistinctNodes(nodes) && fresh(nodes)
      invariant AllNew(Vals(nodes), first) && ChildrenOf(Vals(nodes), leaf.id, depth)
    {
      var prompt := Send();
      var node := new AttackNode(first + b, Some(leaf.id), depth, prompt, "", 0.0);
      nodes := nodes + [node];
    }
  }

  lemma BranchedSnoc(leaves: seq<Node>, before: seq<Node>, more: seq<Node>, depth: nat, branching: nat, l: nat)
    requires l < |leaves| && |more| == branching && ChildrenOf(more, leaves[l].id, depth)
    requires Branched(leaves[..l], before, depth, branching)
    ensures Branched(leaves[..l + 1], before + more, depth, branching)
  {
    var cut, nodes := leaves[..l + 1], before + more;
    forall k, b | 0 <= k < |cut| && 0 <= b < branching
      ensures BranchAt(cut, nodes, depth, branching, k, b)
    {
      if k < l {
        assert BranchAt(leaves[..l], before, depth, branching, k, b);
      } else {
        assert nodes[l * branching + b] == more[b];
      }
    }
  }

  method Branch(leaves: seq<AttackNode>, depth: nat, branching: nat, first: Id) returns (nodes: seq<AttackNode>)
    ensures DistinctNodes(nodes) && fresh(nodes)
    ensures AllNew(Vals(nodes), first) && Branched(Vals(leaves), Vals(nodes), depth, branching)
  {
    nodes := [];
    ghost var ls := Vals(leaves);
    for l := 0 to |leaves|
      invariant DistinctNodes(nodes) && fresh(nodes)
      invariant AllNew(Vals(nodes), first) && Branched(ls[..l], Vals(nodes), depth, branching)
    {
      var more := BranchLeaf(leaves[l], depth, branching, first + |nodes|);
      BranchedSnoc(ls, Vals(nodes), Vals(more), depth, branching, l);
      assert Vals(nodes + more) == Vals(nodes) + Vals(more);
      nodes := nodes + more;
    }
    assert ls[..|leaves|] == ls;
  }

  // ---------- the topic check ----------

  function Marked(cfg: Config, ns: seq<Node>, n: nat): (out: seq<Node>)
    ensures |out| == |ns|
  {
    seq(|ns|, i requires 0 <= i < |ns| =>
      if i < n && cfg.offTopic(ns[i].prompt) then ns[i].(pruned := true, reason := "off_topic") else ns[i])
  }

  function OnTopic(cfg: Config, ns: seq<Node>, n: nat): (ix: seq<nat>)
    requires n <= |ns|
    ensures InRange(ix, n)
  {
    if n == 0 then []
    else OnTopic(cfg, ns, n - 1) + if cfg.offTopic(ns[n - 1].prompt) then [] else [n - 1]
  }

  lemma {:induction false} OnTopicIs(cfg: Config, ns: seq<Node>, n: nat)
    requires n <= |ns|
    ensures forall k, l :: 0 <= k < l < |OnTopic(cfg, ns, n)| ==> OnTopic(cfg, ns, n)[k] < OnTopic(cfg, ns, n)[l]
    ensures forall i :: 0 <= i < n ==> (i in OnTopic(cfg, ns, n) <==> !cfg.offTopic(ns[i].prompt))
  {
    if n == 0 {
    } else {
      OnTopicIs(cfg, ns, n - 1);
    }
  }

  lemma TopicStart(cfg: Config, ns: seq<Node>)
    ensures Marked(cfg, ns, 0) == ns && OnTopic(cfg, ns, 0) == []
  {
  }

  lemma TopicStep(cfg: Config, ns: seq<Node>, i: nat)
    requires i < |ns|
    ensures Marked(cfg, ns, i)[i] == ns[i]
    ensures if cfg.offTopic(ns[i].prompt)
            then Marked(cfg, ns, i + 1) == Marked(cfg, ns, i)[i := ns[i].(pruned := true, reason := "off_topic")]
                 && OnTopic(cfg, ns, i + 1) == OnTopic(cfg, ns, i)
            else Marked(cfg, ns, i + 1) == Marked(cfg, ns, i) && OnTopic(cfg, ns, i + 1) == OnTopic(cfg, ns, i) + [i]
  {
  }

  method PruneOffTopic(cfg: Config, nodes: seq<AttackNode>, ghost ns: seq<Node>) returns (surviving: seq<AttackNode>)
    requires DistinctNodes(nodes) && Vals(nodes) == ns
    modifies nodes
    ensures Vals(nodes) == Marked(cfg, ns, |ns|)
    ensures surviving == At(nodes, OnTopic(cfg, ns, |ns|))
  {
    hide Marked, OnTopic;
    surviving := [];
    TopicStart(cfg, ns);
    for i := 0 to |nodes|
      invariant Vals(nodes) == Marked(cfg, ns, i)
      invariant surviving == At(nodes, OnTopic(cfg, ns, i))
    {
      TopicStep(cfg, ns, i);
      assert nodes[i].Val() == ns[i];
      if cfg.offTopic(nodes[i].prompt) {
        Prune(nodes[i], "off_topic", nodes, i);
      } else {
        surviving := surviving + [nodes[i]];
      }
    }
  }

  // ---------- scoring ----------

  predicate Evaluated(cfg: Config, a: Node, b: Node) {
    b == a.(response := b.response, score := b.score) && Scored(cfg, b)
  }

  /** `b` is `a` after the first k of the listed nodes were answered and scored. */
  predicate ScoredTo(cfg: Config, a: seq<Node>, b: seq<Node>, ix: seq<nat>, k: nat)
    requires InRange(ix, |a|)
  {
    && |a| == |b| && k <= |ix|
    && (forall j :: 0 <= j < k ==> Evaluated(cfg, a[ix[j]], b[ix[j]]))
    && (forall j :: k <= j < |ix| ==> b[ix[j]] == a[ix[j]])
    && (forall i :: 0 <= i < |a| && i !in ix ==> b[i] == a[i])
  }

  predicate NoSuccess(cfg: Config, ns: seq<Node>, ix: seq<nat>, k: nat)
    requires InRange(ix, |ns|)
  {
    forall j :: 0 <= j < k && j < |ix| ==> ns[ix[j]].score < cfg.successThreshold
  }

  /** What the target answers to a prompt: anything. */
  method Ask(prompt: string, ghost calls: seq<(string, string)>) returns (reply: string, ghost called: seq<(string, string)>)
    ensures called == calls + [(prompt, reply)]
  {
    reply := *;
    called := calls + [(prompt, reply)];
  }

  method Evaluate(cfg: Config, node: AttackNode, ghost nodes: seq<AttackNode>, ghost i: nat, ghost calls: seq<(string, string)>)
    returns (ghost called: seq<(string, string)>)
    requires DistinctNodes(nodes) && i < |nodes| && nodes[i] == node
    modifies node
    ensures Evaluated(cfg, old(node.Val()), node.Val())
    ensures Vals(nodes) == old(Vals(nodes))[i := node.Val()]
    ensures called == calls + [(node.prompt, node.response)]
  {
    node.response, called := Ask(node.prompt, calls);
    node.score := cfg.judge(node.prompt, node.response);
  }

  /** The first k of the listed nodes were sent to the target once each, in order, and hold its replies. */
  predicate Asked(calls: seq<(string, string)>, ns: seq<Node>, ix: seq<nat>, k: nat)
    requires InRange(ix, |ns|)
  {
    |calls| == k <= |ix| && forall j :: 0 <= j < k ==> calls[j] == (ns[ix[j]].prompt, ns[ix[j]].response)
  }

  lemma AskedStep(calls: seq<(string, string)>, ns: seq<Node>, ix: seq<nat>, k: nat, n: Node)
    requires InRange(ix, |ns|) && Distinct(ix) && k < |ix| && Asked(calls, ns, ix, k)
    ensures Asked(calls + [(n.prompt, n.response)], ns[ix[k] := n], ix, k + 1)
  {
  }

  lemma ScoreStep(cfg: Config, ns: seq<Node>, a: seq<Node>, ix: seq<nat>, k: nat, n: Node)
    requires InRange(ix, |ns|) && Distinct(ix) && k < |ix| && ScoredTo(cfg, ns, a, ix, k) && NoSuccess(cfg, a, ix, k)
    requires Evaluated(cfg, a[ix[k]], n)
    ensures ScoredTo(cfg, ns, a[ix[k] := n], ix, k + 1) && NoSuccess(cfg, a[ix[k] := n], ix, k)
    ensures n.score < cfg.successThreshold ==> NoSuccess(cfg, a[ix[k] := n], ix, k + 1)
  {
  }

  lemma ScoreStart(cfg: Config, ns: seq<Node>, ix: seq<nat>)
    requires InRange(ix, |ns|)
    ensures ScoredTo(cfg, ns, ns, ix, 0) && NoSuccess(cfg, ns, ix, 0) && Asked([], ns, ix, 0)
  {
  }

  method ScoreLevel(cfg: Config, surviving: seq<AttackNode>, ghost nodes: seq<AttackNode>, ghost ns: seq<Node>, ghost ix: seq<nat>)
    returns (jailbreak: Option<AttackNode>, ghost e: nat, ghost calls: seq<(string, string)>)
    requires DistinctNodes(nodes) && Vals(nodes) == ns
    requires InRange(ix, |ns|) && Distinct(ix) && surviving == At(nodes, ix)
    modifies surviving
    ensures Asked(calls, Vals(nodes), ix, if jailbreak.Some? then e + 1 else e)
    ensures NoSuccess(cfg, Vals(nodes), ix, e)
    ensures if jailbreak.Some?
            then e < |ix| && jailbreak.value == nodes[ix[e]] && ScoredTo(cfg, ns, Vals(nodes), ix, e + 1)
                 && Vals(nodes)[ix[e]].score >= cfg.successThreshold
            else e == |ix| && ScoredTo(cfg, ns, Vals(nodes), ix, e)
  {
    hide ScoredTo, NoSuccess, Evaluated, Scored, Distinct, Asked;
    jailbreak := None;
    e, calls := 0, [];
    ScoreStart(cfg, ns, ix);
    for k := 0 to |surviving|
      invariant e == k && jailbreak.None?
      invariant ScoredTo(cfg, ns, Vals(nodes), ix, k) && NoSuccess(cfg, Vals(nodes), ix, k)
      invariant Asked(calls, Vals(nodes), ix, k)
    {
      ghost var a := Vals(nodes);
      ghost var before := calls;
      calls := Evaluate(cfg, surviving[k], nodes, ix[k], before);
      AskedStep(before, a, ix, k, surviving[k].Val());
      ScoreStep(cfg, ns, a, ix, k, surviving[k].Val());
      if surviving[k].score >= cfg.successThreshold {
        jailbreak := Some(surviving[k]);
        break;
      }
      e := e + 1;
    }
  }

  // ---------- the score cut ----------

  predicate SameMembers(a: seq<nat>, b: seq<nat>) {
    |a| == |b| && Distinct(a) && (forall k :: 0 <= k < |a| ==> a[k] in b) && (forall k :: 0 <= k < |b| ==> b[k] in a)
  }

  /** A new position goes behind every one it does not outscore. */
  lemma RankedInsert(ns: seq<Node>, order: seq<nat>, i: nat, k: nat)
    requires InRange(order, |ns|) && Ranked(ns, order) && i < |ns| && k <= |order|
    requires forall j :: 0 <= j < |order| ==> order[j] < i
    requires k > 0 ==> ns[order[k - 1]].score >= ns[i].score
    requires forall j :: k <= j < |order| ==> ns[order[j]].score < ns[i].score
    ensures Ranked(ns, order[..k] + [i] + order[k..])
  {
    forall j | 0 <= j < k
      ensures RanksBefore(ns, order[j], i)
    {
      if j < k - 1 { assert RanksBefore(ns, order[j], order[k - 1]); }
    }
    assert forall j :: k <= j < |order| ==> RanksBefore(ns, i, order[j]);
  }

  lemma AtInsert(nodes: seq<AttackNode>, order: seq<nat>, i: nat, k: nat)
    requires InRange(order, |nodes|) && i < |nodes| && k <= |order|
    ensures var placed := order[..k] + [i] + order[k..];
            && InRange(placed, |nodes|)
            && At(nodes, placed) == At(nodes, order)[..k] + [nodes[i]] + At(nodes, order)[k..]
  {
  }

  lemma MembersInsert(order: seq<nat>, ix: seq<nat>, i: nat, k: nat)
    requires SameMembers(order, ix) && i !in order && k <= |order|
    ensures SameMembers(order[..k] + [i] + order[k..], ix + [i])
  {
    var out := order[..k] + [i] + order[k..];
    assert order == order[..k] + order[k..];
    forall j | 0 <= j < |ix + [i]|
      ensures (ix + [i])[j] in out
    {
      if j < |ix| { assert ix[j] in order; }
    }
    forall j | 0 <= j < |out|
      ensures out[j] in ix + [i]
    {
      if j != k { assert out[j] in order; }
    }
  }

  lemma SortStart(ns: seq<Node>)
    ensures Ranked(ns, []) && SameMembers([], [])
  {
  }

  lemma MembersNew(order: seq<nat>, ix: seq<nat>, k: nat)
    requires k < |ix| && SameMembers(order, ix[..k])
    requires forall k, l :: 0 <= k < l < |ix| ==> ix[k] < ix[l]
    ensures forall j :: 0 <= j < |order| ==> order[j] < ix[k]
  {
    forall j | 0 <= j < |order|
      ensures order[j] < ix[k]
    {
      assert order[j] in ix[..k];
    }
  }

  /** Puts a node behind every one it does not outscore. */
  method InsertByScore(sorted: seq<AttackNode>, node: AttackNode, ghost nodes: seq<AttackNode>, ghost order: seq<nat>, ghost i: nat)
    returns (out: seq<AttackNode>, ghost at: nat)
    requires InRange(order, |nodes|) && sorted == At(nodes, order) && i < |nodes| && node == nodes[i]
    requires Ranked(Vals(nodes), order) && forall j :: 0 <= j < |order| ==> order[j] < i
    ensures at <= |order|
    ensures var placed := order[..at] + [i] + order[at..];
            InRange(placed, |nodes|) && out == At(nodes, placed) && Ranked(Vals(nodes), placed)
  {
    hide Ranked, At;
    ghost var ns := Vals(nodes);
    var k: nat := |sorted|;
    while k > 0 && sorted[k - 1].score < node.score
      invariant k <= |sorted|
      invariant forall j :: k <= j < |order| ==> ns[order[j]].score < ns[i].score
    {
      k := k - 1;
    }
    RankedInsert(ns, order, i, k);
    AtInsert(nodes, order, i, k);
    at := k;
    out := sorted[..k] + [node] + sorted[k..];
  }

  /** A stable sort by descending score. */
  method SortByScore(surviving: seq<AttackNode>, ghost nodes: seq<AttackNode>, ghost ix: seq<nat>)
    returns (sorted: seq<AttackNode>, ghost order: seq<nat>)
    requires InRange(ix, |nodes|) && surviving == At(nodes, ix)
    requires forall k, l :: 0 <= k < l < |ix| ==> ix[k] < ix[l]
    ensures InRange(order, |nodes|) && sorted == At(nodes, order)
    ensures Ranked(Vals(nodes), order) && SameMembers(order, ix)
  {
    hide Ranked, SameMembers;
    sorted, order := [], [];
    SortStart(Vals(nodes));
    for k := 0 to |surviving|
      invariant InRange(order, |nodes|) && sorted == At(nodes, order)
      invariant Ranked(Vals(nodes), order) && SameMembers(order, ix[..k])
    {
      MembersNew(order, ix, k);
      ghost var at;
      sorted, at := InsertByScore(sorted, surviving[k], nodes, order, ix[k]);
      MembersInsert(order, ix[..k], ix[k], at);
      order := order[..at] + [ix[k]] + order[at..];
      assert ix[..k + 1] == ix[..k] + [ix[k]];
    }
    assert ix[..|surviving|] == ix;
  }

  function LowScore(n: Node): Node {
    n.(pruned := true, reason := "low_score")
  }

  /** `b` is `a` after positions from..to of the ranking were marked. */
  predicate Demoted(a: seq<Node>, b: seq<Node>, order: seq<nat>, from: nat, to: nat)
    requires InRange(order, |a|)
  {
    && |a| == |b|
    && (forall j :: 0 <= j < |order| ==>
          b[order[j]] == if from <= j < to then LowScore(a[order[j]]) else a[order[j]])
    && (forall i :: 0 <= i < |a| && i !in order ==> b[i] == a[i])
  }

  lemma DemoteStep(a: seq<Node>, b: seq<Node>, order: seq<nat>, from: nat, to: nat)
    requires InRange(order, |a|) && Distinct(order) && Demoted(a, b, order, from, to) && from <= to < |order|
    ensures Demoted(a, b[order[to] := LowScore(b[order[to]])], order, from, to + 1)
  {
  }

  method PruneByScore(surviving: seq<AttackNode>, width: nat, ghost nodes: seq<AttackNode>, ghost ns: seq<Node>, ghost ix: seq<nat>)
    returns (top: seq<AttackNode>, ghost order: seq<nat>)
    requires DistinctNodes(nodes) && Vals(nodes) == ns && InRange(ix, |ns|) && surviving == At(nodes, ix)
    requires forall k, l :: 0 <= k < l < |ix| ==> ix[k] < ix[l]
    modifies surviving
    ensures InRange(order, |nodes|) && Ranked(ns, order) && SameMembers(order, ix)
    ensures Demoted(ns, Vals(nodes), order, Min(width, |order|), |order|)
    ensures top == At(nodes, order)[..Min(width, |order|)]
  {
    var sorted;
    sorted, order := SortByScore(surviving, nodes, ix);
    assert forall k :: 0 <= k < |order| ==> sorted[k] in surviving by {
      forall k | 0 <= k < |order| ensures sorted[k] in surviving {
        assert order[k] in ix;
        var j :| 0 <= j < |ix| && ix[j] == order[k];
        assert surviving[j] == sorted[k];
      }
    }
    var w := Min(width, |sorted|);
    top := sorted[..w];
    for k := w to |sorted|
      invariant Demoted(ns, Vals(nodes), order, w, k)
    {
      ghost var was := Vals(nodes);
      Prune(sorted[k], "low_score", nodes, order[k]);
      DemoteStep(ns, was, order, w, k);
    }
  }

  // ---------- one level ----------

  lemma SameShape(leaves: seq<Node>, a: seq<Node>, b: seq<Node>, depth: nat, branching: nat)
    requires Branched(leaves, a, depth, branching) && |a| == |b|
    requires forall i :: 0 <= i < |a| ==> a[i].parentId == b[i].parentId && a[i].depth == b[i].depth
    ensures Branched(leaves, b, depth, branching)
  {
    forall l, c | 0 <= l < |leaves| && 0 <= c < branching
      ensures BranchAt(leaves, b, depth, branching, l, c)
    {
      assert BranchAt(leaves, a, depth, branching, l, c);
    }
  }

  /** `b` only differs from `a` in what scoring and pruning may change. */
  predicate SameOrigin(a: seq<Node>, b: seq<Node>) {
    && |a| == |b|
    && forall i :: 0 <= i < |a| ==>
         a[i].id == b[i].id && a[i].parentId == b[i].parentId && a[i].depth == b[i].depth && a[i].prompt == b[i].prompt
  }

  lemma {:induction false} ScoredKeepsOrigin(cfg: Config, ns: seq<Node>, b: seq<Node>, ix: seq<nat>, k: nat)
    requires InRange(ix, |ns|) && ScoredTo(cfg, ns, b, ix, k)
    ensures SameOrigin(ns, b)
    ensures forall i :: 0 <= i < |ns| ==> b[i].pruned == ns[i].pruned && b[i].reason == ns[i].reason
  {
    forall i | 0 <= i < |ns|
      ensures b[i] == ns[i].(response := b[i].response, score := b[i].score)
    {
      if i in ix { var j :| 0 <= j < |ix| && ix[j] == i; }
    }
  }

  lemma DemotedKeepsOrigin(a: seq<Node>, b: seq<Node>, order: seq<nat>, from: nat)
    requires InRange(order, |a|) && Demoted(a, b, order, from, |order|)
    ensures SameOrigin(a, b)
    ensures forall i :: 0 <= i < |a| ==> b[i].score == a[i].score && b[i].response == a[i].response
  {
    forall i | 0 <= i < |a|
      ensures b[i] == a[i] || b[i] == LowScore(a[i])
    {
      if i in order { var j :| 0 <= j < |order| && order[j] == i; }
    }
  }

  lemma TopicHolds(cfg: Config, ns: seq<Node>, b: seq<Node>, first: Id, lv: Level)
    requires AllNew(ns, first) && lv.nodes == b && lv.survivors == OnTopic(cfg, ns, |ns|) && SameOrigin(ns, b)
    requires forall i :: 0 <= i < |ns| && i !in lv.survivors ==> b[i] == Marked(cfg, ns, |ns|)[i]
    ensures TopicPruned(cfg, lv)
  {
    OnTopicIs(cfg, ns, |ns|);
  }

  lemma BrokenHolds(cfg: Config, ns: seq<Node>, b: seq<Node>, first: Id, ix: seq<nat>, e: nat)
    requires AllNew(ns, first) && ix == OnTopic(cfg, ns, |ns|) && e < |ix|
    requires ScoredTo(cfg, Marked(cfg, ns, |ns|), b, ix, e + 1) && NoSuccess(cfg, b, ix, e)
    requires b[ix[e]].score >= cfg.successThreshold
    ensures var lv := Level(b, ix, [], Some(ix[e])); SameOrigin(ns, b) && TopicPruned(cfg, lv) && Broken(cfg, lv)
  {
    hide ScoredTo, NoSuccess, Marked, TopicPruned, AllNew, OnTopic, SameOrigin, BrokenAt;
    var m, lv := Marked(cfg, ns, |ns|), Level(b, ix, [], Some(ix[e]));
    OnTopicIs(cfg, ns, |ns|);
    ScoredKeepsOrigin(cfg, m, b, ix, e + 1);
    MarkedOrigin(cfg, ns);
    OriginTransitive(ns, m, b);
    ScoredUntouched(cfg, m, b, ix, e + 1);
    TopicHolds(cfg, ns, b, first, lv);
    BrokenPart(cfg, ns, b, first, ix, e);
  }

  lemma ScoredUntouched(cfg: Config, m: seq<Node>, b: seq<Node>, ix: seq<nat>, k: nat)
    requires InRange(ix, |m|) && ScoredTo(cfg, m, b, ix, k)
    ensures forall i :: 0 <= i < |m| && i !in ix ==> b[i] == m[i]
  {
  }

  lemma BrokenPart(cfg: Config, ns: seq<Node>, b: seq<Node>, first: Id, ix: seq<nat>, e: nat)
    requires AllNew(ns, first) && ix == OnTopic(cfg, ns, |ns|) && e < |ix|
    requires ScoredTo(cfg, Marked(cfg, ns, |ns|), b, ix, e + 1) && NoSuccess(cfg, b, ix, e)
    requires b[ix[e]].score >= cfg.successThreshold
    ensures BrokenAt(cfg, Level(b, ix, [], Some(ix[e])), e)
  {
    hide OnTopic;
    var m := Marked(cfg, ns, |ns|);
    OnTopicIs(cfg, ns, |ns|);
    forall k | 0 <= k < |ix|
      ensures m[ix[k]] == ns[ix[k]] && NewNode(ns[ix[k]], first + ix[k])
    {
      assert ix[k] in ix;
    }
  }

  lemma CutHolds(cfg: Config, ns: seq<Node>, s: seq<Node>, b: seq<Node>, first: Id, ix: seq<nat>, order: seq<nat>)
    requires AllNew(ns, first) && ix == OnTopic(cfg, ns, |ns|)
    requires ScoredTo(cfg, Marked(cfg, ns, |ns|), s, ix, |ix|) && NoSuccess(cfg, s, ix, |ix|)
    requires InRange(order, |ns|) && Ranked(s, order) && SameMembers(order, ix)
    requires Demoted(s, b, order, Min(cfg.width, |order|), |order|)
    ensures var lv := Level(b, ix, order[..Min(cfg.width, |order|)], None);
            SameOrigin(ns, b) && TopicPruned(cfg, lv) && Cut(cfg, lv)
  {
    hide Ranked, SameMembers, ScoredTo, Demoted, NoSuccess, Marked, TopicPruned, AllNew, OnTopic, SameOrigin;
    var m, w := Marked(cfg, ns, |ns|), Min(cfg.width, |order|);
    var lv := Level(b, ix, order[..w], None);
    OnTopicIs(cfg, ns, |ns|);
    ScoredKeepsOrigin(cfg, m, s, ix, |ix|);
    DemotedKeepsOrigin(s, b, order, w);
    MarkedOrigin(cfg, ns);
    OriginTransitive(ns, m, s);
    OriginTransitive(ns, s, b);
    CutUntouched(cfg, m, s, b, ix, order, w);
    TopicHolds(cfg, ns, b, first, lv);
    CutSurvivors(cfg, ns, m, s, b, first, ix, order, w);
    assert forall k :: 0 <= k < w ==> lv.kept[k] == order[k];
    CutOrder(s, b, ix, order, w);
  }

  lemma OriginTransitive(a: seq<Node>, b: seq<Node>, c: seq<Node>)
    requires SameOrigin(a, b) && SameOrigin(b, c)
    ensures SameOrigin(a, c) && |a| == |b| == |c|
  {
  }

  lemma MarkedOrigin(cfg: Config, ns: seq<Node>)
    ensures SameOrigin(ns, Marked(cfg, ns, |ns|))
  {
  }

  lemma CutUntouched(cfg: Config, m: seq<Node>, s: seq<Node>, b: seq<Node>, ix: seq<nat>, order: seq<nat>, w: nat)
    requires InRange(ix, |m|) && InRange(order, |m|) && SameMembers(order, ix)
    requires ScoredTo(cfg, m, s, ix, |ix|) && Demoted(s, b, order, w, |order|)
    ensures forall i :: 0 <= i < |m| && i !in ix ==> b[i] == m[i]
    ensures |order| == |ix| && (w <= |order| ==> forall k :: 0 <= k < w ==> order[..w][k] in ix)
  {
  }

  lemma CutOrder(s: seq<Node>, b: seq<Node>, ix: seq<nat>, order: seq<nat>, w: nat)
    requires |s| == |b| && InRange(ix, |s|) && InRange(order, |s|) && w <= |order|
    requires forall i :: 0 <= i < |s| ==> s[i].score == b[i].score
    requires Ranked(s, order) && SameMembers(order, ix)
    ensures Distinct(order[..w]) && Ranked(b, order[..w])
    ensures forall k, l :: 0 <= k < w && 0 <= l < |ix| && ix[l] !in order[..w] ==> RanksBefore(b, order[..w][k], ix[l])
  {
    forall k, l | 0 <= k < l < |order|
      ensures RanksBefore(b, order[k], order[l])
    {
      assert RanksBefore(s, order[k], order[l]);
    }
    assert forall j :: 0 <= j < w ==> order[..w][j] == order[j];
    forall k, l | 0 <= k < w && 0 <= l < |ix| && ix[l] !in order[..w]
      ensures RanksBefore(b, order[..w][k], ix[l])
    {
      assert ix[l] in order;
    }
  }

  lemma CutSurvivors(cfg: Config, ns: seq<Node>, m: seq<Node>, s: seq<Node>, b: seq<Node>, first: Id,
                     ix: seq<nat>, order: seq<nat>, w: nat)
    requires AllNew(ns, first) && m == Marked(cfg, ns, |ns|) && ix == OnTopic(cfg, ns, |ns|)
    requires ScoredTo(cfg, m, s, ix, |ix|) && NoSuccess(cfg, s, ix, |ix|)
    requires InRange(order, |ns|) && SameMembers(order, ix) && w <= |order| && Demoted(s, b, order, w, |order|)
    ensures forall k :: 0 <= k < |ix| ==>
              && Scored(cfg, b[ix[k]]) && b[ix[k]].score < cfg.successThreshold
              && (b[ix[k]].pruned <==> ix[k] !in order[..w]) && (b[ix[k]].pruned ==> b[ix[k]].reason == "low_score")
  {
    hide OnTopic;
    OnTopicIs(cfg, ns, |ns|);
    forall k | 0 <= k < |ix|
      ensures Scored(cfg, b[ix[k]]) && b[ix[k]].score < cfg.successThreshold
      ensures b[ix[k]].pruned <==> ix[k] !in order[..w]
      ensures b[ix[k]].pruned ==> b[ix[k]].reason == "low_score"
    {
      var i := ix[k];
      assert i in ix && i in order;
      assert m[i] == ns[i] && NewNode(ns[i], first + i);
      assert Evaluated(cfg, m[ix[k]], s[ix[k]]);
      var j :| 0 <= j < |order| && order[j] == i;
      if j < w { assert order[..w][j] == i; }
      if i in order[..w] {
        var j' :| 0 <= j' < w && order[..w][j'] == i;
        assert order[j'] == i;
      }
    }
  }

  /** What scoring and the cut add to a level whose nodes were `ns` before the topic check. */
  ghost predicate Finished(cfg: Config, ns: seq<Node>, lv: Level) {
    && SameOrigin(ns, lv.nodes) && TopicPruned(cfg, lv)
    && if lv.jailbreak.Some? then Broken(cfg, lv) else Cut(cfg, lv)
  }

  ghost predicate JailbreakIs(nodes: seq<AttackNode>, jailbreak: Option<AttackNode>, at: Option<nat>) {
    if jailbreak.None? then at.None?
    else at.Some? && at.value < |nodes| && jailbreak.value == nodes[at.value]
  }

  /** Scores the survivors up to the first success, else cuts them to the best leaves. */
  method FinishLevel(cfg: Config, surviving: seq<AttackNode>, ghost nodes: seq<AttackNode>, ghost ns: seq<Node>, ghost first: Id)
    returns (top: seq<AttackNode>, jailbreak: Option<AttackNode>, ghost lv: Level)
    requires DistinctNodes(nodes) && AllNew(ns, first) && Vals(nodes) == Marked(cfg, ns, |ns|)
    requires surviving == At(nodes, OnTopic(cfg, ns, |ns|))
    modifies surviving
    ensures Vals(nodes) == lv.nodes && lv.survivors == OnTopic(cfg, ns, |ns|) && Finished(cfg, ns, lv)
    ensures JailbreakIs(nodes, jailbreak, lv.jailbreak)
    ensures InRange(lv.kept, |nodes|) && top == At(nodes, lv.kept)
  {
    hide ScoredTo, NoSuccess, Ranked, SameMembers, Demoted, Broken, Cut, TopicPruned, AllNew, Marked, OnTopic;
    ghost var ix := OnTopic(cfg, ns, |ns|);
    OnTopicIs(cfg, ns, |ns|);
    ghost var e, calls;
    jailbreak, e, calls := ScoreLevel(cfg, surviving, nodes, Marked(cfg, ns, |ns|), ix);
    ghost var s := Vals(nodes);
    if jailbreak.Some? {
      top := [];
      lv := Level(s, ix, [], Some(ix[e]));
      BrokenHolds(cfg, ns, s, first, ix, e);
    } else {
      ghost var order;
      top, order := PruneByScore(surviving, cfg.width, nodes, s, ix);
      lv := Level(Vals(nodes), ix, order[..Min(cfg.width, |order|)], None);
      CutHolds(cfg, ns, s, Vals(nodes), first, ix, order);
    }
  }

  /** Branch, check the topic, score until a success, cut to the best leaves. */
  method GrowLevel(cfg: Config, leaves: seq<AttackNode>, depth: nat, first: Id)
    returns (nodes: seq<AttackNode>, surviving: seq<AttackNode>, top: seq<AttackNode>,
             jailbreak: Option<AttackNode>, ghost lv: Level)
    ensures fresh(nodes) && DistinctNodes(nodes) && Vals(nodes) == lv.nodes
    ensures forall i :: 0 <= i < |lv.nodes| ==> lv.nodes[i].id == first + i
    ensures Branched(Vals(leaves), lv.nodes, depth, cfg.branching) && Pruned(cfg, lv)
    ensures |surviving| == |lv.survivors| && JailbreakIs(nodes, jailbreak, lv.jailbreak)
    ensures InRange(lv.kept, |nodes|) && top == At(nodes, lv.kept)
  {
    hide Branched, Broken, Cut, TopicPruned, Marked, OnTopic, AllNew;
    nodes := Branch(leaves, depth, cfg.branching, first);
    ghost var ls, ns := Vals(leaves), Vals(nodes);
    surviving := PruneOffTopic(cfg, nodes, ns);
    top, jailbreak, lv := FinishLevel(cfg, surviving, nodes, ns, first);
    assert forall i :: 0 <= i < |leaves| ==> leaves[i].Val() == ls[i];
    assert Vals(leaves) == ls;
    SameShape(ls, ns, lv.nodes, depth, cfg.branching);
    OriginIds(ns, lv.nodes, first);
  }

  lemma OriginIds(ns: seq<Node>, b: seq<Node>, first: Id)
    requires AllNew(ns, first) && SameOrigin(ns, b)
    ensures forall i :: 0 <= i < |b| ==> b[i].id == first + i
  {
  }

  // ---------- a dry run ----------

  /** The mock children of one leaf: what the program names them is left open. */
  method MockLeaf(leaf: AttackNode, depth: nat, branching: nat, first: Id) returns (nodes: seq<AttackNode>)
    ensures |nodes| == branching && DistinctNodes(nodes) && fresh(nodes)
    ensures AllMock(Vals(nodes), first) && ChildrenOf(Vals(nodes), leaf.id, depth)
  {
    nodes := [];
    for b := 0 to branching
      invariant |nodes| == b && DistinctNodes(nodes) && fresh(nodes)
      invariant AllMock(Vals(nodes), first) && ChildrenOf(Vals(nodes), leaf.id, depth)
    {
      var prompt := Send();
      var node := new AttackNode(first + b, Some(leaf.id), depth, prompt, MOCK_RESPONSE, 1.0);
      nodes := nodes + [node];
    }
  }

  predicate AllMock(ns: seq<Node>, first: Id) {
    forall i :: 0 <= i < |ns| ==>
      ns[i].id == first + i && ns[i].response == MOCK_RESPONSE && ns[i].score == 1.0 && !ns[i].pruned
  }

  method MockBranch(leaves: seq<AttackNode>, depth: nat, branching: nat, first: Id) returns (nodes: seq<AttackNode>)
    ensures DistinctNodes(nodes) && fresh(nodes)
    ensures AllMock(Vals(nodes), first) && Branched(Vals(leaves), Vals(nodes), depth, branching)
  {
    nodes := [];
    ghost var ls := Vals(leaves);
    for l := 0 to |leaves|
      invariant DistinctNodes(nodes) && fresh(nodes)
      invariant AllMock(Vals(nodes), first) && Branched(ls[..l], Vals(nodes), depth, branching)
    {
      var more := MockLeaf(leaves[l], depth, branching, first + |nodes|);
      BranchedSnoc(ls, Vals(nodes), Vals(more), depth, branching, l);
      assert Vals(nodes + more) == Vals(nodes) + Vals(more);
      nodes := nodes + more;
    }
    assert ls[..|leaves|] == ls;
  }

  /** `b` is `a` with the nodes at positions from..to marked as dropped. */
  predicate MockCut(a: seq<Node>, b: seq<Node>, from: nat, to: nat) {
    && |a| == |b|
    && forall i :: 0 <= i < |a| ==>
         b[i] == if from <= i < to then a[i].(pruned := true, reason := "mock_low_score") else a[i]
  }

  /** Without scores the first `width` new nodes are kept. */
  method DropOverflow(nodes: seq<AttackNode>, width: nat, ghost ns: seq<Node>) returns (top: seq<AttackNode>)
    requires DistinctNodes(nodes) && Vals(nodes) == ns
    modifies nodes
    ensures MockCut(ns, Vals(nodes), width, |ns|)
    ensures top == nodes[..Min(width, |nodes|)]
  {
    if |nodes| <= width {
      return nodes;
    }
    for k := width to |nodes|
      invariant MockCut(ns, Vals(nodes), width, k)
    {
      Prune(nodes[k], "mock_low_score", nodes, k);
    }
    top := nodes[..width];
  }

  function Upto(n: nat): (ix: seq<nat>)
    ensures |ix| == n && forall k :: 0 <= k < n ==> ix[k] == k
  {
    seq(n, k requires 0 <= k < n => k)
  }

  /** One level of a dry run: no model is asked and nothing is scored. */
  method ExpandDryRun(cfg: Config, leaves: seq<AttackNode>, depth: nat, first: Id)
    returns (nodes: seq<AttackNode>, top: seq<AttackNode>, ghost lv: Level)
    ensures fresh(nodes) && DistinctNodes(nodes) && Vals(nodes) == lv.nodes
    ensures forall i :: 0 <= i < |lv.nodes| ==> lv.nodes[i].id == first + i
    ensures Branched(Vals(leaves), lv.nodes, depth, cfg.branching) && Mocked(cfg, lv)
    ensures InRange(lv.kept, |nodes|) && top == At(nodes, lv.kept)
  {
    hide Branched;
    nodes := MockBranch(leaves, depth, cfg.branching, first);
    ghost var ls, ns := Vals(leaves), Vals(nodes);
    top := DropOverflow(nodes, cfg.width, ns);
    lv := Level(Vals(nodes), Upto(|nodes|), Upto(Min(cfg.width, |nodes|)), None);
    SameShape(ls, ns, lv.nodes, depth, cfg.branching);
  }

  // ---------- a run ----------

  predicate Numbered(ns: seq<Node>) {
    forall i :: 0 <= i < |ns| ==> ns[i].id == i
  }

  lemma GrowingSnoc(cfg: Config, root: Node, levels: seq<Level>, lv: Level)
    requires Growing(cfg, root, levels) && |levels| < cfg.depth
    requires levels == [] || !Stops(cfg, levels[|levels| - 1])
    requires GoodLevel(cfg, LeavesFor(root, levels, |levels|), |levels| + 1, lv)
    requires Numbered(Flat(root, levels))
    requires forall i :: 0 <= i < |lv.nodes| ==> lv.nodes[i].id == |Flat(root, levels)| + i
    ensures Growing(cfg, root, levels + [lv]) && Numbered(Flat(root, levels + [lv]))
    ensures Flat(root, levels + [lv]) == Flat(root, levels) + lv.nodes
  {
    hide GoodLevel, LevelOf, IsRoot, Stops, LeavesFor, Numbered, DistinctIds, Flat;
    var more := levels + [lv];
    LevelsSnoc(cfg, root, levels, lv);
    FlatSnoc(root, levels, lv);
    NumberedSnoc(Flat(root, levels), lv.nodes);
    assert forall d :: 0 <= d < |levels| ==> more[d] == levels[d];
  }

  lemma FlatSnoc(root: Node, levels: seq<Level>, lv: Level)
    ensures Flat(root, levels + [lv]) == Flat(root, levels) + lv.nodes
  {
    assert (levels + [lv])[..|levels|] == levels;
  }

  lemma NumberedSnoc(ns: seq<Node>, more: seq<Node>)
    requires Numbered(ns) && forall i :: 0 <= i < |more| ==> more[i].id == |ns| + i
    ensures Numbered(ns + more) && DistinctIds(ns + more)
  {
  }

  lemma LevelsSnoc(cfg: Config, root: Node, levels: seq<Level>, lv: Level)
    requires Growing(cfg, root, levels)
    requires GoodLevel(cfg, LeavesFor(root, levels, |levels|), |levels| + 1, lv)
    ensures forall d :: 0 <= d <= |levels| ==> LevelOf(cfg, root, levels + [lv], d)
  {
    hide GoodLevel, KeptNodes, Flat, IsRoot, DistinctIds, Stops;
    var more := levels + [lv];
    forall d | 0 <= d <= |levels|
      ensures LevelOf(cfg, root, more, d)
    {
      assert LeavesFor(root, more, d) == LeavesFor(root, levels, d);
      if d < |levels| { assert LevelOf(cfg, root, levels, d); }
    }
  }

  /** The specification's level for either mode. */
  ghost predicate NextLevel(cfg: Config, root: Node, levels: seq<Level>, lv: Level) {
    && GoodLevel(cfg, LeavesFor(root, levels, |levels|), |levels| + 1, lv)
    && forall i :: 0 <= i < |lv.nodes| ==> lv.nodes[i].id == |Flat(root, levels)| + i
  }

  /** The next level in either mode. */
  method NextNodes(cfg: Config, leaves: seq<AttackNode>, depth: nat, first: Id, ghost root: Node, ghost levels: seq<Level>)
    returns (more: seq<AttackNode>, surviving: seq<AttackNode>, top: seq<AttackNode>, hit: Option<AttackNode>, ghost lv: Level)
    requires depth == |levels| + 1 && first == |Flat(root, levels)|
    requires Vals(leaves) == LeavesFor(root, levels, |levels|)
    ensures fresh(more) && Vals(more) == lv.nodes && NextLevel(cfg, root, levels, lv)
    ensures Stops(cfg, lv) <==> !cfg.dryRun && (surviving == [] || hit.Some?)
    ensures JailbreakIs(more, hit, lv.jailbreak) && (cfg.dryRun ==> hit.None?)
    ensures InRange(lv.kept, |lv.nodes|) && top == At(more, lv.kept)
  {
    hide Branched, Pruned;
    if cfg.dryRun {
      more, top, lv := ExpandDryRun(cfg, leaves, depth, first);
      surviving, hit := more, None;
    } else {
      more, surviving, top, hit, lv := GrowLevel(cfg, leaves, depth, first);
    }
  }

  /** One pass of the depth loop: the new nodes join the trace. */
  method Deepen(cfg: Config, nodes: seq<AttackNode>, leaves: seq<AttackNode>, depth: nat, ghost root: Node, ghost levels: seq<Level>)
    returns (trace: seq<AttackNode>, surviving: seq<AttackNode>, top: seq<AttackNode>, hit: Option<AttackNode>, ghost deeper: seq<Level>)
    requires Growing(cfg, root, levels) && depth == |levels| + 1 <= cfg.depth
    requires levels == [] || !Stops(cfg, levels[|levels| - 1])
    requires Vals(nodes) == Flat(root, levels) && Numbered(Vals(nodes))
    requires Vals(leaves) == LeavesFor(root, levels, |levels|)
    ensures |deeper| == depth && Growing(cfg, root, deeper)
    ensures forall i :: 0 <= i < |trace| ==> fresh(trace[i]) || trace[i] in nodes
    ensures Vals(trace) == Flat(root, deeper) && Numbered(Vals(trace))
    ensures Stops(cfg, deeper[depth - 1]) <==> !cfg.dryRun && (surviving == [] || hit.Some?)
    ensures JailbreakIs(trace, hit, JailbreakOf(root, deeper)) && (cfg.dryRun ==> hit.None?)
    ensures hit.None? ==> Vals(top) == LeavesFor(root, deeper, depth)
  {
    hide IsRoot, DistinctIds, LevelOf, GoodLevel, Stops;
    ghost var was := Vals(nodes);
    var more;
    ghost var lv;
    more, surviving, top, hit, lv := NextNodes(cfg, leaves, depth, |nodes|, root, levels);
    trace, deeper := nodes + more, levels + [lv];
    assert Vals(trace) == was + lv.nodes;
    GrowingSnoc(cfg, root, levels, lv);
    assert deeper[..depth - 1] == levels;
  }

  /** The whole search: levels grow from the kept leaves until the depth limit, a success, or a
      level without survivors. */
  method Run(cfg: Config) returns (nodes: seq<AttackNode>, jailbreak: Option<AttackNode>, ghost root: Node, ghost levels: seq<Level>)
    ensures fresh(nodes) && IsRun(cfg, root, levels)
    ensures Vals(nodes) == Flat(root, levels) && JailbreakIs(nodes, jailbreak, JailbreakOf(root, levels))
  {
    hide GoodLevel, LevelOf;
    var rootNode := new AttackNode(0, None, 0, "", "", 0.0);
    root := rootNode.Val();
    levels := [];
    nodes := [rootNode];
    jailbreak := None;
    var leaves := [rootNode];
    for depth := 1 to cfg.depth + 1
      invariant fresh(nodes) && Vals(nodes) == Flat(root, levels) && Numbered(Flat(root, levels))
      invariant |levels| == depth - 1 && Growing(cfg, root, levels)
      invariant levels == [] || !Stops(cfg, levels[|levels| - 1])
      invariant Vals(leaves) == LeavesFor(root, levels, depth - 1)
      invariant jailbreak.None? && JailbreakOf(root, levels).None?
    {
      var surviving, top;
      nodes, surviving, top, jailbreak, levels := Deepen(cfg, nodes, leaves, depth, root, levels);
      if !cfg.dryRun && (surviving == [] || jailbreak.Some?) {
        break;
      }
      leaves := top;
    }
  }

  // ---------- the recorded trajectory ----------

  /** { node.id: node for node in all_nodes } */
  method NodeMap(nodes: seq<AttackNode>, ghost ns: seq<Node>) returns (m: map<Id, AttackNode>)
    requires Vals(nodes) == ns && DistinctIds(ns)
    ensures forall i :: 0 <= i < |nodes| ==> nodes[i].id in m && m[nodes[i].id] == nodes[i]
  {
    m := map[];
    for k := 0 to |nodes|
      invariant forall i :: 0 <= i < k ==> nodes[i].id in m && m[nodes[i].id] == nodes[i]
    {
      assert forall i :: 0 <= i < k ==> ns[i].id != ns[k].id;
      m := m[nodes[k].id := nodes[k]];
    }
  }

  /** The walk upwards from full[at] goes to full[at - 1], and stops at full[0]. */
  ghost predicate LeadsUp(nodeMap: map<Id, AttackNode>, full: seq<AttackNode>, at: nat)
    requires at < |full|
  {
    var up := full[at].parentId;
    if at == 0 then up.None? else up.Some? && up.value in nodeMap && nodeMap[up.value] == full[at - 1]
  }

  lemma PathLeadsUp(nodeMap: map<Id, AttackNode>, nodes: seq<AttackNode>, ns: seq<Node>, i: nat, at: nat)
    requires forall k :: 0 <= k < |nodes| ==> nodes[k].id in nodeMap && nodeMap[nodes[k].id] == nodes[k]
    requires Vals(nodes) == ns && Tree(ns) && i < |ns| && at < |Path(ns, i)|
    ensures LeadsUp(nodeMap, At(nodes, Path(ns, i)), at)
  {
    assert nodes[Path(ns, i)[at]].Val() == ns[Path(ns, i)[at]];
    if at > 0 {
      PathLink(ns, i, at);
      assert nodes[Path(ns, i)[at - 1]].Val() == ns[Path(ns, i)[at - 1]];
    }
  }

  /** The nodes from the root down to a given node. */
  method ReconstructPath(end: AttackNode, nodes: seq<AttackNode>, ghost ns: seq<Node>, ghost i: nat) returns (path: seq<AttackNode>)
    requires Vals(nodes) == ns && Tree(ns) && i < |ns| && nodes[i] == end
    ensures path == At(nodes, Path(ns, i))
  {
    var nodeMap := NodeMap(nodes, ns);
    ghost var full := At(nodes, Path(ns, i));
    forall at | 0 <= at < |full|
      ensures LeadsUp(nodeMap, full, at)
    {
      PathLeadsUp(nodeMap, nodes, ns, i, at);
    }
    path := WalkUp(nodeMap, end, full);
  }

  /** Follows parent ids through the dictionary until a node has none, then reverses. */
  method WalkUp(nodeMap: map<Id, AttackNode>, end: AttackNode, ghost full: seq<AttackNode>) returns (path: seq<AttackNode>)
    requires full != [] && full[|full| - 1] == end
    requires forall at :: 0 <= at < |full| ==> LeadsUp(nodeMap, full, at)
    ensures path == full
  {
    path := [];
    var current: AttackNode? := end;
    while current != null
      invariant |path| < |full| && current == full[|full| - 1 - |path|]
      invariant forall k :: 0 <= k < |path| ==> path[k] == full[|full| - 1 - k]
      decreases |full| - |path|
    {
      var n: AttackNode := current;
      assert LeadsUp(nodeMap, full, |full| - 1 - |path|);
      path := path + [n];
      if n.parentId.None? {
        break;
      }
      current := if n.parentId.value in nodeMap then nodeMap[n.parentId.value] else null;
    }
    path := Reverse(path);
  }

  /** The nodes that were evaluated and not pruned, with their scores. */
  method EvaluatedNodes(nodes: seq<AttackNode>, ghost ns: seq<Node>) returns (evaluated: seq<AttackNode>, keys: seq<Key>)
    requires Vals(nodes) == ns
    ensures evaluated == At(nodes, CandidatesBelow(ns, |ns|)) && keys == ScoreKeys(ns, CandidatesBelow(ns, |ns|))
  {
    evaluated, keys := [], [];
    for k := 0 to |nodes|
      invariant evaluated == At(nodes, CandidatesBelow(ns, k))
      invariant keys == ScoreKeys(ns, CandidatesBelow(ns, k))
    {
      var n := nodes[k];
      assert n.Val() == ns[k];
      if n.depth > 0 && !n.pruned && n.score > 0.0 {
        evaluated, keys := evaluated + [n], keys + [Finite(n.score)];
      }
    }
  }

  /** The first best-scored of them. */
  method BestEvaluated(nodes: seq<AttackNode>, ghost ns: seq<Node>) returns (best: Option<AttackNode>)
    requires Vals(nodes) == ns
    ensures JailbreakIs(nodes, best, BestNode(ns, None))
  {
    var evaluated, keys := EvaluatedNodes(nodes, ns);
    if evaluated == [] {
      return None;
    }
    var at := ArgMax(keys);
    best := Some(evaluated[at]);
  }

  /** Records the winning path of a run as turns. */
  method PopulateBestTrajectory(nodes: seq<AttackNode>, jailbreak: Option<AttackNode>, ghost ns: seq<Node>, ghost jail: Option<nat>)
    returns (turns: seq<Turn>)
    requires Vals(nodes) == ns && Tree(ns) && JailbreakIs(nodes, jailbreak, jail)
    ensures turns == Turns(ns, jail)
  {
    var best := jailbreak;
    if best.None? {
      best := BestEvaluated(nodes, ns);
    }
    turns := [];
    if best.None? {
      return;
    }
    ghost var at := BestNode(ns, jail).value;
    var path := ReconstructPath(best.value, nodes, ns, at);
    turns := TurnsBelowRoot(path, nodes, ns, Path(ns, at));
  }

  method TurnsBelowRoot(path: seq<AttackNode>, ghost nodes: seq<AttackNode>, ghost ns: seq<Node>, ghost ix: seq<nat>)
    returns (turns: seq<Turn>)
    requires Vals(nodes) == ns && InRange(ix, |ns|) && ix != [] && path == At(nodes, ix)
    requires forall k :: 0 <= k < |ix| ==> ns[ix[k]].depth == k
    ensures turns == PathTurns(ns, ix[1..])
  {
    turns := [];
    for k := 0 to |path|
      invariant |turns| == if k == 0 then 0 else k - 1
      invariant forall l :: 0 <= l < |turns| ==> turns[l] == PathTurns(ns, ix[1..])[l]
    {
      assert path[k].Val() == ns[ix[k]];
      if path[k].depth > 0 {
        turns := turns + [Turn(path[k].depth, path[k].prompt, path[k].response)];
      }
    }
  }

  /** TAPAttack.run up to the final judgement: the tree and its recorded turns, none in a dry run. */
  method Attack(cfg: Config) returns (nodes: seq<AttackNode>, turns: seq<Turn>, ghost root: Node, ghost levels: seq<Level>)
    ensures IsRun(cfg, root, levels) && Vals(nodes) == Flat(root, levels) && Tree(Flat(root, levels))
    ensures JailbreakOf(root, levels).Some? ==> JailbreakOf(root, levels).value < |Flat(root, levels)|
    ensures turns == if cfg.dryRun then [] else Turns(Flat(root, levels), JailbreakOf(root, levels))
  {
    var jailbreak;
    nodes, jailbreak, root, levels := Run(cfg);
    RunIsTree(cfg, root, levels);
    if cfg.dryRun {
      return nodes, [], root, levels;
    }
    turns := PopulateBestTrajectory(nodes, jailbreak, Flat(root, levels), JailbreakOf(root, levels));
  }
}
