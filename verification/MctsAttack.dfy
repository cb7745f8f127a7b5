/** MCTSAttack.run: the simulation loop over the shared tree, the final answer, and the two
    later reconstructions of the winning path from the trace. Every model reply, token count,
    id and strategy sample is an arbitrary value. */
module MctsAttack {
  import opened Common
  import opened MctsSpec
  import opened MctsRun
  import opened MctsTree

  class Trace {
    var mctsNodes: seq<MctsNode>
    var tokensConsumed: nat

    constructor ()
      ensures mctsNodes == [] && tokensConsumed == 0
    {
      mctsNodes, tokensConsumed := [], 0;
    }
  }

  datatype Settings = Settings(simulations: nat, maxDepth: nat, strategyCount: nat, rolloutTurns: nat,
                               budget: int, explore: (nat, nat) -> real, judge: (string, string) -> real)

  function ConfigOf(s: Settings, strategies: seq<string>): Config {
    Config(s.maxDepth, Min(s.strategyCount, |strategies|), s.rolloutTurns, s.budget, s.explore, s.judge)
  }

  /** One send to a model: any reply at any token cost. */
  method Send() returns (reply: string, tokens: nat) {
    reply, tokens := *, *;
  }

  /** random.sample: distinct positions of the list, in any order. */
  method Sample(items: seq<string>, count: nat) returns (picked: seq<string>)
    requires count <= |items|
    ensures |picked| == count && multiset(picked) <= multiset(items)
  {
    picked := [];
    var rest := items;
    while |picked| < count
      invariant |picked| <= count && |picked| + |rest| == |items|
      invariant multiset(picked) + multiset(rest) == multiset(items)
    {
      var k: nat :| k < |rest|;
      assert rest == rest[..k] + [rest[k]] + rest[k + 1..];
      picked, rest := picked + [rest[k]], rest[..k] + rest[k + 1..];
    }
  }

  lemma {:induction false} FreshIdExists(used: set<Id>) returns (id: Id)
    ensures forall u :: u in used ==> u < id
    decreases |used|
  {
    if used == {} {
      id := 0;
    } else {
      var u :| u in used;
      id := FreshIdExists(used - {u});
      assert forall v :: v in used ==> v == u || v in used - {u};
      id := if id > u then id else u + 1;
    }
  }

  method ExpandBranch(leaf: MctsNode, strategy: string, taken: map<Id, MctsNode>)
    returns (child: MctsNode, tokens: nat, ghost b: Branch)
    ensures fresh(child) && child.Val() == NewNode(leaf.Val(), b)
    ensures b.id !in taken && b.strategy == strategy && tokens == b.attackerTokens + b.targetTokens
  {
    var message, aTokens := Send();
    var response, tTokens := Send();
    ghost var free := FreshIdExists(taken.Keys);
    assert free !in taken;
    var id: Id :| id !in taken;
    child := new MctsNode(id, Some(leaf.id), leaf.depth + 1, strategy, message, response);
    tokens := aTokens + tTokens;
    b := Branch(id, strategy, message, response, aTokens, tTokens);
  }

  /** The old nodes followed by one new child of `parent` per branch. */
  ghost function WithChildren(ns: seq<Node>, parent: Node, bs: seq<Branch>): seq<Node> {
    ns + seq(|bs|, k requires 0 <= k < |bs| => NewNode(parent, bs[k]))
  }

  lemma FreshIdsSnoc(ns: seq<Node>, bs: seq<Branch>, b: Branch, nodes: map<Id, MctsNode>, order: seq<MctsNode>, parent: Node)
    requires FreshIds(ns, bs) && Indexes(nodes, order) && b.id !in nodes
    requires Vals(order) == WithChildren(ns, parent, bs)
    ensures FreshIds(ns, bs + [b])
  {
    forall i | 0 <= i < |ns| + |bs|
      ensures Vals(order)[i].id != b.id
    {
      assert order[i].id in nodes;
    }
    forall i | 0 <= i < |ns|
      ensures ns[i].id != b.id
    {
      assert Vals(order)[i] == ns[i];
    }
    forall k | 0 <= k < |bs|
      ensures bs[k].id != b.id
    {
      assert Vals(order)[|ns| + k] == NewNode(parent, bs[k]);
    }
  }

  lemma NextIdFresh(tree: Tree, ns: seq<Node>, bs: seq<Branch>, b: Branch, parent: Node)
    requires tree.Valid() && FreshIds(ns, bs) && tree.View() == WithChildren(ns, parent, bs) && b.id !in tree.nodes
    ensures FreshIds(ns, bs + [b])
  {
    hide FreshIds, WithChildren, Registry;
    FreshIdsSnoc(ns, bs, b, tree.nodes, tree.order, parent);
  }

  lemma WithChildrenSnoc(ns: seq<Node>, parent: Node, bs: seq<Branch>, b: Branch)
    ensures WithChildren(ns, parent, bs) + [NewNode(parent, b)] == WithChildren(ns, parent, bs + [b])
  {
  }

  lemma ExpandedGrows(ns: seq<Node>, l: nat, bs: seq<Branch>)
    requires l < |ns|
    ensures var mid := WithChildren(ns, ns[l], bs); mid[l := mid[l].(expanded := true)] == Grown(ns, l, bs)
  {
  }

  method MarkExpanded(node: MctsNode, ghost order: seq<MctsNode>, ghost l: nat)
    requires l < |order| && order[l] == node && forall k :: 0 <= k < |order| && k != l ==> order[k] != node
    modifies node
    ensures Vals(order) == old(Vals(order))[l := old(Vals(order))[l].(expanded := true)]
  {
    node.isExpanded := true;
  }

  method MarkTerminal(node: MctsNode, ghost order: seq<MctsNode>, ghost l: nat)
    requires l < |order| && order[l] == node && forall k :: 0 <= k < |order| && k != l ==> order[k] != node
    modifies node
    ensures Vals(order) == old(Vals(order))[l := old(Vals(order))[l].(terminal := true)]
  {
    node.isTerminal := true;
  }

  method RecordScore(node: MctsNode, score: real, ghost order: seq<MctsNode>, ghost l: nat)
    requires l < |order| && order[l] == node && forall k :: 0 <= k < |order| && k != l ==> order[k] != node
    modifies node
    ensures Vals(order) == old(Vals(order))[l := old(Vals(order))[l].(score := score)]
  {
    node.score := score;
  }

  /** What selection and expansion made of the state `st`. */
  ghost predicate ExpansionOf(cfg: Config, st: Search, bs: seq<Branch>, grown: seq<Node>) {
    && Ready(cfg, st) && FreshIds(st.nodes, bs)
    && var l := SelectedLeaf(cfg, st);
       if Expands(cfg, st) then |bs| == cfg.branching && grown == Grown(st.nodes, l, bs)
       else bs == [] && grown == st.nodes[l := st.nodes[l].(terminal := true)]
  }

  /** What the two kinds of loop iteration did is one step of the specification. */
  lemma IdleStep(cfg: Config, st: Search, ns: seq<Node>) returns (input: SimInput, next: Search)
    requires ExpansionOf(cfg, st, [], ns)
    ensures next == Search(ns, st.tokens)
    ensures Fits(cfg, st, input) && next == SimStep(cfg, st, input)
  {
    input, next := SimInput([], []), Search(ns, st.tokens);
  }

  /** A rollout from node i of a grown tree: its length and the reward it earned. */
  ghost predicate RolloutFrom(cfg: Config, grown: seq<Node>, i: nat, rollout: seq<Exchange>, reward: real) {
    && Registry(grown) && i < |grown| && Registry(grown[i := grown[i].(score := reward)])
    && |rollout| == Min(cfg.rolloutTurns, cfg.maxDepth - grown[i].depth)
    && reward == Reward(cfg.judge, History(grown, Path(grown, i)) + Dialogue(rollout))
  }

  ghost function Credited(grown: seq<Node>, i: nat, reward: real): seq<Node>
    requires i < |grown| && Registry(grown[i := grown[i].(score := reward)])
  {
    Backprop(grown[i := grown[i].(score := reward)], i, reward)
  }

  lemma ProductiveStep(cfg: Config, st: Search, bs: seq<Branch>, rollout: seq<Exchange>, grown: seq<Node>, reward: real)
    returns (input: SimInput, next: Search)
    requires ExpansionOf(cfg, st, bs, grown) && bs != []
    requires RolloutFrom(cfg, grown, |st.nodes|, rollout, reward)
    ensures next == Search(Credited(grown, |st.nodes|, reward), st.tokens + BranchCost(bs) + RolloutCost(rollout))
    ensures Fits(cfg, st, input) && next == SimStep(cfg, st, input)
  {
    input := SimInput(bs, rollout);
    next := SimStep(cfg, st, input);
  }

  function Tried(bs: seq<Branch>): (strategies: seq<string>)
    ensures |strategies| == |bs|
  {
    seq(|bs|, k requires 0 <= k < |bs| => bs[k].strategy)
  }

  lemma NoBranches(ns: seq<Node>, parent: Node)
    ensures Tried([]) == [] && BranchCost([]) == 0 && FreshIds(ns, []) && WithChildren(ns, parent, []) == ns
  {
  }

  lemma BranchCostSnoc(bs: seq<Branch>, b: Branch)
    ensures BranchCost(bs + [b]) == BranchCost(bs) + b.attackerTokens + b.targetTokens
  {
    assert (bs + [b])[..|bs|] == bs;
  }

  lemma TriedSnoc(bs: seq<Branch>, b: Branch)
    ensures Tried(bs + [b]) == Tried(bs) + [b.strategy]
  {
  }

  class Attack {
    const settings: Settings
    var tokensConsumed: nat

    constructor (settings: Settings)
      ensures this.settings == settings
    {
      this.settings := settings;
    }

    /** One strategy branch: generate, register in the tree and in the trace. */
    method AddBranch(leaf: MctsNode, strategy: string, tree: Tree, trace: Trace, ghost l: nat,
                     ghost before: seq<Node>, ghost bs: seq<Branch>)
      returns (child: MctsNode, ghost b: Branch)
      requires tree.Valid() && l < |tree.order| && tree.order[l] == leaf && trace.mctsNodes == tree.order
      requires FreshIds(before, bs) && tree.View() == WithChildren(before, leaf.Val(), bs)
      modifies this, tree, trace`mctsNodes
      ensures tree.Valid() && tree.order == old(tree.order) + [child] && trace.mctsNodes == tree.order
      ensures fresh(child) && FreshIds(before, bs + [b]) && b.strategy == strategy
      ensures tree.View() == WithChildren(before, leaf.Val(), bs + [b])
      ensures tokensConsumed == old(tokensConsumed) + b.attackerTokens + b.targetTokens
    {
      hide Registry, Indexes, FreshIds, WithChildren, Tree.Valid, Tree.View;
      var tokens;
      child, tokens, b := ExpandBranch(leaf, strategy, tree.nodes);
      tokensConsumed := tokensConsumed + tokens;
      NextIdFresh(tree, before, bs, b, leaf.Val());
      WithChildrenSnoc(before, leaf.Val(), bs, b);
      tree.Register(child, l);
      trace.mctsNodes := trace.mctsNodes + [child];
    }

    /** Registers one new child per sampled strategy. */
    method Branches(leaf: MctsNode, tree: Tree, trace: Trace, sampled: seq<string>, ghost l: nat)
      returns (children: seq<MctsNode>, ghost bs: seq<Branch>)
      requires tree.Valid() && l < |tree.order| && tree.order[l] == leaf && trace.mctsNodes == tree.order
      modifies this, tree, trace`mctsNodes
      ensures tree.Valid() && trace.mctsNodes == tree.order && |bs| == |sampled|
      ensures tree.order == old(tree.order) + children && fresh(children)
      ensures FreshIds(old(tree.View()), bs) && Tried(bs) == sampled
      ensures tree.View() == WithChildren(old(tree.View()), leaf.Val(), bs)
      ensures tokensConsumed == old(tokensConsumed) + BranchCost(bs)
    {
      hide Registry, Indexes, FreshIds, WithChildren, Tried, BranchCost;
      ghost var before, start := tree.View(), tree.order;
      children, bs := [], [];
      NoBranches(before, leaf.Val());
      for k := 0 to |sampled|
        invariant tree.Valid() && trace.mctsNodes == tree.order && |bs| == k
        invariant tree.order == start + children && fresh(children) && Tried(bs) == sampled[..k]
        invariant FreshIds(before, bs) && tree.View() == WithChildren(before, leaf.Val(), bs)
        invariant tokensConsumed == old(tokensConsumed) + BranchCost(bs)
      {
        var child;
        ghost var b;
        child, b := AddBranch(leaf, sampled[k], tree, trace, l, before, bs);
        TriedSnoc(bs, b);
        BranchCostSnoc(bs, b);
        assert sampled[..k + 1] == sampled[..k] + [sampled[k]];
        assert start + (children + [child]) == start + children + [child];
        children, bs := children + [child], bs + [b];
      }
      assert sampled[..|sampled|] == sampled;
    }

    /** Expansion above the depth cap. */
    method Grow(leaf: MctsNode, tree: Tree, trace: Trace, strategies: seq<string>, ghost l: nat)
      returns (children: seq<MctsNode>, ghost bs: seq<Branch>)
      requires tree.Valid() && l < |tree.order| && tree.order[l] == leaf && trace.mctsNodes == tree.order
      modifies this, tree, trace`mctsNodes, leaf
      ensures tree.Valid() && trace.mctsNodes == tree.order
      ensures tree.order == old(tree.order) + children && fresh(children)
      ensures tokensConsumed == old(tokensConsumed) + BranchCost(bs)
      ensures |children| == |bs| == ConfigOf(settings, strategies).branching
      ensures multiset(Tried(bs)) <= multiset(strategies)
      ensures FreshIds(old(tree.View()), bs) && tree.View() == Grown(old(tree.View()), l, bs)
    {
      ghost var before := tree.View();
      var sampled := Sample(strategies, Min(settings.strategyCount, |strategies|));
      children, bs := Branches(leaf, tree, trace, sampled, l);
      ghost var mid := tree.View();
      OthersDiffer(tree, l);
      MarkExpanded(leaf, tree.order, l);
      ExpandedGrows(before, l, bs);
      LinksKeepRegistry(mid, tree.View());
    }

    method Expand(leaf: MctsNode, tree: Tree, trace: Trace, strategies: seq<string>, ghost l: nat)
      returns (children: seq<MctsNode>, ghost bs: seq<Branch>)
      requires tree.Valid() && l < |tree.order| && tree.order[l] == leaf && trace.mctsNodes == tree.order
      modifies this, tree, trace`mctsNodes, leaf
      ensures tree.Valid() && trace.mctsNodes == tree.order
      ensures tree.order == old(tree.order) + children && fresh(children)
      ensures tokensConsumed == old(tokensConsumed) + BranchCost(bs)
      ensures |children| == |bs| && FreshIds(old(tree.View()), bs) && multiset(Tried(bs)) <= multiset(strategies)
      ensures leaf.depth >= settings.maxDepth ==>
                bs == [] && tree.View() == old(tree.View())[l := old(tree.View())[l].(terminal := true)]
      ensures leaf.depth < settings.maxDepth ==>
                |bs| == ConfigOf(settings, strategies).branching && tree.View() == Grown(old(tree.View()), l, bs)
    {
      if leaf.depth >= settings.maxDepth {
        ghost var before := tree.View();
        OthersDiffer(tree, l);
        MarkTerminal(leaf, tree.order, l);
        LinksKeepRegistry(before, tree.View());
        children, bs := [], [];
      } else {
        children, bs := Grow(leaf, tree, trace, strategies, l);
      }
    }

    /** The token-constrained rollout from a conversation that ends at `depth`. */
    method Rollout(base: seq<(string, string)>, depth: nat)
      returns (history: seq<(string, string)>, consumed: nat, ghost rollout: seq<Exchange>)
      requires depth <= settings.maxDepth
      ensures |rollout| == Min(settings.rolloutTurns, settings.maxDepth - depth)
      ensures history == base + Dialogue(rollout) && consumed == RolloutCost(rollout)
    {
      history, consumed, rollout := base, 0, [];
      var currentDepth, turn := depth, 0;
      while turn < settings.rolloutTurns && currentDepth < settings.maxDepth
        invariant |rollout| == turn <= settings.rolloutTurns
        invariant currentDepth == depth + turn <= settings.maxDepth
        invariant history == base + Dialogue(rollout) && consumed == RolloutCost(rollout)
        decreases settings.rolloutTurns - turn
      {
        var message, aTokens := Send();
        var response, tTokens := Send();
        consumed := consumed + aTokens + tTokens;
        history := history + [(message, response)];
        ghost var x := Exchange(message, response, aTokens, tTokens);
        assert (rollout + [x])[..turn] == rollout;
        assert Dialogue(rollout + [x]) == Dialogue(rollout) + [(message, response)];
        rollout := rollout + [x];
        currentDepth, turn := currentDepth + 1, turn + 1;
      }
    }

    /** Rolls out from a new node and scores the end of the conversation. */
    method Simulate(node: MctsNode, tree: Tree, ghost i: nat)
      returns (reward: real, tokens: nat, ghost rollout: seq<Exchange>)
      requires tree.Valid() && i < |tree.order| && tree.order[i] == node && node.depth <= settings.maxDepth
      ensures |rollout| == Min(settings.rolloutTurns, settings.maxDepth - node.depth)
      ensures reward == Reward(settings.judge, History(tree.View(), Path(tree.View(), i)) + Dialogue(rollout))
      ensures tokens == RolloutCost(rollout)
    {
      var base := tree.GetHistory(node, i);
      var history;
      history, tokens, rollout := Rollout(base, node.depth);
      reward := Reward(settings.judge, history);
    }

    /** Records a new child's rollout reward and propagates it. */
    method Credit(tree: Tree, child: MctsNode, reward: real, ghost grown: seq<Node>, ghost i: nat)
      requires tree.Valid() && tree.View() == grown && i < |tree.order| && tree.order[i] == child
      modifies tree.order
      ensures tree.Valid() && Registry(grown[i := grown[i].(score := reward)])
      ensures tree.View() == Credited(grown, i, reward)
    {
      OthersDiffer(tree, i);
      RecordScore(child, reward, tree.order, i);
      LinksKeepRegistry(grown, tree.View());
      Backpropagate(tree, child, reward, i);
    }

    /** Rollout and backpropagation of the first new child. */
    method RollOut(tree: Tree, child: MctsNode, ghost cfg: Config, ghost grown: seq<Node>, ghost i: nat)
      returns (tokens: nat, ghost rollout: seq<Exchange>, ghost reward: real)
      requires tree.Valid() && tree.View() == grown && i < |tree.order| && tree.order[i] == child
      requires child.depth <= settings.maxDepth && cfg.judge == settings.judge
      requires cfg.maxDepth == settings.maxDepth && cfg.rolloutTurns == settings.rolloutTurns
      modifies tree.order
      ensures tree.Valid() && RolloutFrom(cfg, grown, i, rollout, reward)
      ensures tree.View() == Credited(grown, i, reward) && tokens == RolloutCost(rollout)
    {
      assert child.Val() == grown[i];
      var r;
      r, tokens, rollout := Simulate(child, tree, i);
      Credit(tree, child, r, grown, i);
      reward := r;
    }

    /** The token counter is apart from the tree. */
    method AddTokens(tokens: nat, ghost tree: Tree)
      requires tree.Valid()
      modifies this
      ensures tokensConsumed == old(tokensConsumed) + tokens
      ensures tree.Valid() && tree.View() == old(tree.View()) && tree.order == old(tree.order)
    {
      tokensConsumed := tokensConsumed + tokens;
    }

    /** The second half of an iteration: roll out from the first child, if there is one. */
    method Conclude(tree: Tree, children: seq<MctsNode>, ghost cfg: Config, ghost st: Search,
                    ghost bs: seq<Branch>, ghost grown: seq<Node>)
      returns (ghost input: SimInput, ghost next: Search)
      requires tree.Valid() && tree.View() == grown && tokensConsumed == st.tokens + BranchCost(bs)
      requires ExpansionOf(cfg, st, bs, grown) && cfg.judge == settings.judge
      requires cfg.maxDepth == settings.maxDepth && cfg.rolloutTurns == settings.rolloutTurns
      requires |children| == |bs| && (children != [] ==> |st.nodes| < |tree.order| && tree.order[|st.nodes|] == children[0])
      modifies this, tree.order
      ensures tree.Valid() && tree.View() == next.nodes && tokensConsumed == next.tokens
      ensures Fits(cfg, st, input) && next == SimStep(cfg, st, input)
    {
      if children == [] {
        input, next := IdleStep(cfg, st, grown);
      } else {
        assert children[0].Val() == grown[|st.nodes|] && children[0].depth <= cfg.maxDepth;
        var tokens;
        ghost var rollout, reward;
        tokens, rollout, reward := RollOut(tree, children[0], cfg, grown, |st.nodes|);
        AddTokens(tokens, tree);
        input, next := ProductiveStep(cfg, st, bs, rollout, grown, reward);
      }
    }

    /** The first half of an iteration. */
    method SelectAndExpand(tree: Tree, trace: Trace, strategies: seq<string>, ghost st: Search)
      returns (children: seq<MctsNode>, ghost bs: seq<Branch>)
      requires tree.Valid() && trace.mctsNodes == tree.order && tree.View() == st.nodes
      requires Ready(ConfigOf(settings, strategies), st)
      modifies this, tree, trace`mctsNodes, tree.order
      ensures tree.Valid() && trace.mctsNodes == tree.order
      ensures tree.order == old(tree.order) + children && fresh(children) && |children| == |bs|
      ensures tokensConsumed == old(tokensConsumed) + BranchCost(bs)
      ensures ExpansionOf(ConfigOf(settings, strategies), st, bs, tree.View())
    {
      var leaf;
      ghost var l;
      leaf, l := tree.SelectNode(settings.maxDepth, settings.explore);
      assert leaf.Val() == st.nodes[l];
      children, bs := Expand(leaf, tree, trace, strategies, l);
    }

    /** One iteration of the simulation loop, from the state `st` to the state `next`. */
    method SimulateOnce(tree: Tree, trace: Trace, strategies: seq<string>, ghost st: Search)
      returns (ghost input: SimInput, ghost next: Search)
      requires tree.Valid() && trace.mctsNodes == tree.order && tree.View() == st.nodes
      requires Ready(ConfigOf(settings, strategies), st) && tokensConsumed == st.tokens
      modifies this, tree, trace`mctsNodes, tree.order
      ensures tree.Valid() && trace.mctsNodes == tree.order
      ensures |old(tree.order)| <= |tree.order|
      ensures forall i :: 0 <= i < |tree.order| ==>
                if i < |old(tree.order)| then tree.order[i] == old(tree.order)[i] else fresh(tree.order[i])
      ensures tree.View() == next.nodes && tokensConsumed == next.tokens
      ensures Fits(ConfigOf(settings, strategies), st, input)
      ensures next == SimStep(ConfigOf(settings, strategies), st, input)
    {
      hide Registry, Indexes, Ready, Fits, SimStep, ExpansionOf;
      var children;
      ghost var bs;
      children, bs := SelectAndExpand(tree, trace, strategies, st);
      assert |tree.View()| == |st.nodes| + |bs|;
      input, next := Conclude(tree, children, ConfigOf(settings, strategies), st, bs, tree.View());
    }

    /** A fresh tree holding only the root, listed in a fresh trace. */
    method Start() returns (tree: Tree, trace: Trace, ghost st: Search)
      modifies this
      ensures fresh(tree) && fresh(trace) && tree.Valid() && trace.mctsNodes == tree.order
      ensures forall i :: 0 <= i < |tree.order| ==> fresh(tree.order[i])
      ensures tokensConsumed == st.tokens && tree.View() == st.nodes && Initial(st)
    {
      tokensConsumed := 0;
      trace := new Trace();
      var rootId: Id := *;
      var root := new MctsNode(rootId, None, 0, "", "", "");
      tree := new Tree(root);
      trace.mctsNodes := [root];
      st := Search(tree.View(), 0);
    }

    /** One iteration, recorded in the run. */
    method Iterate(tree: Tree, trace: Trace, strategies: seq<string>, ghost states: seq<Search>, ghost inputs: seq<SimInput>)
      returns (ghost more: seq<Search>, ghost ins: seq<SimInput>)
      requires tree.Valid() && trace.mctsNodes == tree.order && tokensConsumed < settings.budget
      requires RunTo(ConfigOf(settings, strategies), states, inputs, Search(tree.View(), tokensConsumed))
      modifies this, tree, trace`mctsNodes, tree.order
      ensures tree.Valid() && trace.mctsNodes == tree.order && |ins| == |inputs| + 1
      ensures |old(tree.order)| <= |tree.order|
      ensures forall i :: 0 <= i < |tree.order| ==>
                if i < |old(tree.order)| then tree.order[i] == old(tree.order)[i] else fresh(tree.order[i])
      ensures RunTo(ConfigOf(settings, strategies), more, ins, Search(tree.View(), tokensConsumed))
    {
      ghost var input, next;
      input, next := SimulateOnce(tree, trace, strategies, Search(tree.View(), tokensConsumed));
      more, ins := states + [next], inputs + [input];
      ExtendRun(ConfigOf(settings, strategies), states, inputs, input);
      assert next == Search(tree.View(), tokensConsumed);
    }

    /** The search loop. */
    method Loop(tree: Tree, trace: Trace, strategies: seq<string>, ghost first: Search)
      returns (ghost states: seq<Search>, ghost inputs: seq<SimInput>)
      requires tree.Valid() && trace.mctsNodes == tree.order
      requires first == Search(tree.View(), tokensConsumed) && Initial(first)
      modifies this, tree, trace`mctsNodes, tree.order
      ensures tree.Valid() && trace.mctsNodes == tree.order && |inputs| <= settings.simulations
      ensures RunTo(ConfigOf(settings, strategies), states, inputs, Search(tree.View(), tokensConsumed))
      ensures |inputs| < settings.simulations ==> tokensConsumed >= settings.budget
    {
      hide Registry, Indexes, Ready, Initial, StepsTo, IsRun, RunTo;
      states, inputs := [first], [];
      StartRun(ConfigOf(settings, strategies), first);
      for sim := 0 to settings.simulations
        invariant |inputs| == sim && tree.Valid() && trace.mctsNodes == tree.order
        invariant |old(tree.order)| <= |tree.order|
        invariant forall i :: 0 <= i < |tree.order| ==>
                    if i < |old(tree.order)| then tree.order[i] == old(tree.order)[i] else fresh(tree.order[i])
        invariant RunTo(ConfigOf(settings, strategies), states, inputs, Search(tree.View(), tokensConsumed))
      {
        if tokensConsumed >= settings.budget { break; }
        states, inputs := Iterate(tree, trace, strategies, states, inputs);
      }
    }

    /** A whole search on a fresh tree. */
    method RunSearch(strategies: seq<string>)
      returns (tree: Tree, trace: Trace, ghost states: seq<Search>, ghost inputs: seq<SimInput>)
      modifies this
      ensures tree.Valid() && trace.mctsNodes == tree.order
      ensures IsRun(ConfigOf(settings, strategies), states, inputs) && |inputs| <= settings.simulations
      ensures ConfigOf(settings, strategies) ==
                Config(settings.maxDepth, Min(settings.strategyCount, |strategies|), settings.rolloutTurns,
                       settings.budget, settings.explore, settings.judge)
      ensures |inputs| < settings.simulations ==> states[|inputs|].tokens >= settings.budget
      ensures tree.View() == states[|inputs|].nodes && trace.tokensConsumed == states[|inputs|].tokens
    {
      hide Registry, Indexes, Initial, IsRun, RunTo;
      ghost var first;
      tree, trace, first := Start();
      states, inputs := Loop(tree, trace, strategies, first);
      EndRun(ConfigOf(settings, strategies), states, inputs, Search(tree.View(), tokensConsumed));
      trace.tokensConsumed := tokensConsumed;
    }
  }

  lemma StartRun(cfg: Config, st: Search)
    requires Initial(st)
    ensures RunTo(cfg, [st], [], st)
  {
    InitialReady(cfg, st);
  }

  lemma EndRun(cfg: Config, states: seq<Search>, inputs: seq<SimInput>, st: Search)
    requires RunTo(cfg, states, inputs, st)
    ensures IsRun(cfg, states, inputs) && |states| == |inputs| + 1 && st == states[|inputs|]
  {
  }

  ghost predicate RunTo(cfg: Config, states: seq<Search>, inputs: seq<SimInput>, st: Search) {
    IsRun(cfg, states, inputs) && st == states[|inputs|] && Ready(cfg, st)
  }

  lemma ExtendRun(cfg: Config, states: seq<Search>, inputs: seq<SimInput>, input: SimInput)
    requires IsRun(cfg, states, inputs)
    requires var st := states[|inputs|]; Ready(cfg, st) && Fits(cfg, st, input) && st.tokens < cfg.budget
    ensures var next := SimStep(cfg, states[|inputs|], input);
            Ready(cfg, next) && IsRun(cfg, states + [next], inputs + [input])
  {
    hide Ready, Fits, SimStep, Initial;
    var st := states[|inputs|];
    var next := SimStep(cfg, st, input);
    StepKeepsInv(cfg, st, input);
    assert StepsTo(cfg, st, input, next);
    var more, ins := states + [next], inputs + [input];
    forall k | 0 <= k < |ins|
      ensures StepsTo(cfg, more[k], ins[k], more[k + 1])
    {
      if k < |inputs| { assert StepsTo(cfg, states[k], inputs[k], states[k + 1]); }
    }
  }

  // ---------- the answer, three times over ----------

  /** The nodes of the best node's path, without the root. */
  ghost function WinningNodesOf(ns: seq<Node>): seq<Node>
    requires Registry(ns)
  {
    var path := Path(ns, BestLeaf(ns));
    seq(|path| - 1, k requires 0 <= k < |path| - 1 => ns[path[k + 1]])
  }

  datatype Turn = Turn(number: nat, prompt: string, response: string)
  datatype PathStep = PathStep(depth: nat, strategy: string, score: real)
  datatype Block = Block(turn: Turn, strategy: string)

  function TurnOf(n: Node): Turn {
    Turn(n.depth, n.prompt, n.response)
  }

  function Turns(path: seq<Node>): seq<Turn> {
    seq(|path|, k requires 0 <= k < |path| => TurnOf(path[k]))
  }

  function Steps(path: seq<Node>): seq<PathStep> {
    seq(|path|, k requires 0 <= k < |path| => PathStep(path[k].depth, path[k].strategy, path[k].score))
  }

  function Blocks(path: seq<Node>): seq<Block> {
    seq(|path|, k requires 0 <= k < |path| => Block(TurnOf(path[k]), path[k].strategy))
  }

  lemma WinningObjects(nodes: seq<MctsNode>, ns: seq<Node>, full: seq<MctsNode>)
    requires Vals(nodes) == ns && Registry(ns) && full == At(nodes, Path(ns, BestLeaf(ns)))
    ensures Vals(full[1..]) == WinningNodesOf(ns)
    ensures forall k :: 0 <= k < |full| ==> full[k].depth == k
  {
    hide Registry, BestLeaf, Path;
    var ix := Path(ns, BestLeaf(ns));
    forall k | 0 <= k < |full|
      ensures full[k].Val() == ns[ix[k]] && full[k].depth == k
    {
    }
  }

  /** The turns of the nodes below the root of a path. */
  method TurnsBelowRoot(path: seq<MctsNode>, ghost below: seq<Node>) returns (turns: seq<Turn>)
    requires path != [] && Vals(path[1..]) == below
    requires forall k :: 0 <= k < |path| ==> path[k].depth == k
    ensures turns == Turns(below)
  {
    turns := [];
    for k := 0 to |path|
      invariant |turns| == if k == 0 then 0 else k - 1
      invariant forall l :: 0 <= l < |turns| ==> turns[l] == TurnOf(below[l])
    {
      if path[k].depth > 0 {
        assert path[1..][k - 1].Val() == below[k - 1];
        turns := turns + [Turn(path[k].depth, path[k].prompt, path[k].response)];
      }
    }
  }

  /** finalize_mcts_trace: the turns of the best leaf's path. */
  method FinalTurns(tree: Tree, ghost ns: seq<Node>) returns (turns: seq<Turn>)
    requires tree.Valid() && tree.View() == ns
    ensures turns == Turns(WinningNodesOf(ns))
  {
    var found := FirstBestAverage(tree.order);
    var best: MctsNode := if found == null then tree.root else found;
    var path := tree.GetPath(best, BestLeaf(ns));
    WinningObjects(tree.order, ns, path);
    turns := TurnsBelowRoot(path, WinningNodesOf(ns));
  }

  /** { n.id: n for n in nodes } */
  method NodeMap(nodes: seq<MctsNode>) returns (m: map<Id, MctsNode>)
    requires DistinctIds(Vals(nodes))
    ensures Indexes(m, nodes)
  {
    m := map[];
    for k := 0 to |nodes|
      invariant forall i :: 0 <= i < k ==> nodes[i].id in m && m[nodes[i].id] == nodes[i]
      invariant |m| == k && forall id :: id in m ==> exists i :: 0 <= i < k && nodes[i].id == id
    {
      assert forall i :: 0 <= i < k ==> Vals(nodes)[i].id != Vals(nodes)[k].id;
      m := m[nodes[k].id := nodes[k]];
    }
  }

  /** The walk that the transcript and the judge's formatter make: it stops below depth 1. */
  method WalkBelowRoot(nodes: map<Id, MctsNode>, node: MctsNode, ghost full: seq<MctsNode>) returns (path: seq<MctsNode>)
    requires full != [] && full[|full| - 1] == node
    requires forall k :: 0 <= k < |full| ==> full[k].depth == k
    requires forall at :: 0 <= at < |full| ==> LeadsUp(nodes, full, at)
    ensures path == full[1..]
  {
    path := [];
    var current: MctsNode? := node;
    while current != null && current.depth > 0
      invariant |path| < |full| && current == full[|full| - 1 - |path|]
      invariant forall k :: 0 <= k < |path| ==> path[k] == full[|full| - 1 - k]
      decreases |full| - |path|
    {
      var n: MctsNode := current;
      assert LeadsUp(nodes, full, |full| - 1 - |path|);
      path := path + [n];
      current := if n.parentId.Some? && n.parentId.value in nodes then nodes[n.parentId.value] else null;
    }
    path := Reverse(path);
  }

  lemma AllLeadUp(nodeMap: map<Id, MctsNode>, nodes: seq<MctsNode>, ns: seq<Node>, at: nat)
    requires Indexes(nodeMap, nodes) && Vals(nodes) == ns && Registry(ns) && at < |ns|
    ensures var full := At(nodes, Path(ns, at)); forall k :: 0 <= k < |full| ==> LeadsUp(nodeMap, full, k)
  {
    var full := At(nodes, Path(ns, at));
    forall k | 0 <= k < |full|
      ensures LeadsUp(nodeMap, full, k)
    {
      PathLeadsUp(nodeMap, nodes, at, k);
    }
  }

  lemma NoneVisited(ns: seq<Node>)
    requires Registry(ns) && VisitedBelow(ns, |ns|) == []
    ensures WinningNodesOf(ns) == []
  {
  }

  /** The winning nodes as _build_mcts_line and _format_mcts_nodes each rebuild them from the
      trace's node list alone. */
  method WinningNodes(nodes: seq<MctsNode>, ghost ns: seq<Node>) returns (path: seq<MctsNode>)
    requires Vals(nodes) == ns && Registry(ns)
    ensures Vals(path) == WinningNodesOf(ns)
  {
    hide VisitedBelow, FirstMax, BestLeaf, WinningNodesOf;
    ghost var full := At(nodes, Path(ns, BestLeaf(ns)));
    WinningObjects(nodes, ns, full);
    var best := FirstBestAverage(nodes);
    if best == null {
      NoneVisited(ns);
      return [];
    }
    path := RebuildPath(nodes, best, ns, full);
  }

  method RebuildPath(nodes: seq<MctsNode>, best: MctsNode, ghost ns: seq<Node>, ghost full: seq<MctsNode>) returns (path: seq<MctsNode>)
    requires Vals(nodes) == ns && Registry(ns) && full == At(nodes, Path(ns, BestLeaf(ns)))
    requires full != [] && full[|full| - 1] == best
    requires forall k :: 0 <= k < |full| ==> full[k].depth == k
    ensures path == full[1..]
  {
    var nodeMap := NodeMap(nodes);
    AllLeadUp(nodeMap, nodes, ns, BestLeaf(ns));
    path := WalkBelowRoot(nodeMap, best, full);
  }

  method BuildMctsLine(trace: Trace, ghost ns: seq<Node>) returns (line: seq<PathStep>)
    requires Vals(trace.mctsNodes) == ns && Registry(ns)
    ensures line == Steps(WinningNodesOf(ns))
  {
    var path := WinningNodes(trace.mctsNodes, ns);
    hide WinningNodesOf, Registry;
    line := [];
    for k := 0 to |path|
      invariant |line| == k && forall l :: 0 <= l < k ==> line[l] == Steps(Vals(path))[l]
    {
      line := line + [PathStep(path[k].depth, path[k].strategy, path[k].score)];
    }
  }

  method FormatMctsNodes(trace: Trace, ghost ns: seq<Node>) returns (blocks: seq<Block>)
    requires Vals(trace.mctsNodes) == ns && Registry(ns)
    ensures blocks == Blocks(WinningNodesOf(ns))
  {
    var path := WinningNodes(trace.mctsNodes, ns);
    hide WinningNodesOf, Registry;
    blocks := [];
    for k := 0 to |path|
      invariant |blocks| == k && forall l :: 0 <= l < k ==> blocks[l] == Blocks(Vals(path))[l]
    {
      blocks := blocks + [Block(Turn(path[k].depth, path[k].prompt, path[k].response), path[k].strategy)];
    }
  }

  /** The judged turns, the transcript's path and the judge's text follow one node sequence. */
  method Report(tree: Tree, trace: Trace, ghost ns: seq<Node>)
    returns (turns: seq<Turn>, line: seq<PathStep>, blocks: seq<Block>)
    requires tree.Valid() && trace.mctsNodes == tree.order && tree.View() == ns
    ensures turns == Turns(WinningNodesOf(ns)) && line == Steps(WinningNodesOf(ns)) && blocks == Blocks(WinningNodesOf(ns))
  {
    turns := FinalTurns(tree, ns);
    line := BuildMctsLine(trace, ns);
    blocks := FormatMctsNodes(trace, ns);
  }

  /** A whole search and its reports: every run of the attack is a run of the specification, and
      all three reports follow the best path of its last state. */
  method SearchAndReport(attack: Attack, strategies: seq<string>)
    returns (turns: seq<Turn>, line: seq<PathStep>, blocks: seq<Block>, ghost states: seq<Search>, ghost inputs: seq<SimInput>)
    modifies attack
    ensures IsRun(ConfigOf(attack.settings, strategies), states, inputs) && Registry(states[|inputs|].nodes)
    ensures var path := WinningNodesOf(states[|inputs|].nodes);
            turns == Turns(path) && line == Steps(path) && blocks == Blocks(path)
  {
    hide Registry, StepsTo, WinningNodesOf;
    var tree, trace;
    tree, trace, states, inputs := attack.RunSearch(strategies);
    turns, line, blocks := Report(tree, trace, states[|inputs|].nodes);
  }

  /** The reports describe one node sequence, numbered 1, 2, ... up to the best leaf: each says what
      was said, tried and scored at that node. */
  lemma ReportsAgree(ns: seq<Node>, k: nat)
    requires Registry(ns) && k < |WinningNodesOf(ns)|
    ensures var path := WinningNodesOf(ns);
            && |Turns(path)| == |Steps(path)| == |Blocks(path)| == ns[BestLeaf(ns)].depth
            && Blocks(path)[k].turn == Turns(path)[k]
            && Turns(path)[k].number == Steps(path)[k].depth == k + 1
            && Turns(path)[k].prompt == path[k].prompt && Turns(path)[k].response == path[k].response
            && Steps(path)[k].strategy == Blocks(path)[k].strategy == path[k].strategy
            && Steps(path)[k].score == path[k].score
            && path[k].parentId == Some(if k == 0 then ns[0].id else path[k - 1].id)
            && path[|path| - 1] == ns[BestLeaf(ns)]
  {
    hide WinningNodesOf, Registry, BestLeaf;
    WinningLinks(ns, k);
  }

  lemma WinningLinks(ns: seq<Node>, k: nat)
    requires Registry(ns) && k < |WinningNodesOf(ns)|
    ensures var path := WinningNodesOf(ns);
            && |path| == ns[BestLeaf(ns)].depth && path[k].depth == k + 1
            && path[k].parentId == Some(if k == 0 then ns[0].id else path[k - 1].id)
            && path[|path| - 1] == ns[BestLeaf(ns)]
  {
    hide Registry, Path, BestLeaf;
    PathLink(ns, BestLeaf(ns), k + 1);
    assert ParentAt(ns, Path(ns, BestLeaf(ns))[k + 1], Path(ns, BestLeaf(ns))[k]);
  }
}
