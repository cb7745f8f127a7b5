/** Whole GS-MCTS searches: every state of every run, under any replies from the models. */
module MctsRun {
  import opened Common
  import opened MctsSpec

  // ---------- one simulation ----------

  lemma {:induction false} SelectStops(ns: seq<Node>, from: nat, maxDepth: nat, explore: (nat, nat) -> real)
    requires Registry(ns) && CountsNest(ns) && from < |ns|
    ensures var leaf := Select(ns, from, maxDepth, explore);
            !ns[leaf].expanded || ns[leaf].depth >= maxDepth || Children(ns, leaf) == []
    decreases |ns| - from
  {
    if ns[from].expanded && ns[from].depth < maxDepth && Children(ns, from) != [] {
      SelectStops(ns, BestChild(ns, from, explore), maxDepth, explore);
    }
  }

  ghost predicate OnlyFlagsDiffer(a: seq<Node>, b: seq<Node>) {
    && |a| == |b|
    && forall i :: 0 <= i < |a| ==>
         && b[i] == a[i].(terminal := b[i].terminal, expanded := b[i].expanded)
         && (a[i].expanded ==> b[i].expanded)
  }

  lemma FlagsKeepInv(a: seq<Node>, b: seq<Node>, maxDepth: nat)
    requires Inv(a, maxDepth) && OnlyFlagsDiffer(a, b)
    ensures Inv(b, maxDepth)
  {
    LinksKeepRegistry(a, b);
    forall i | 0 <= i < |b|
      ensures Balanced(b, i, 0, 0.0)
    {
      assert Balanced(a, i, 0, 0.0);
      SumsUnmoved(a, b, a[i].id, |a|);
      assert forall k :: 0 <= k < |a| ==> a[k].parentId == b[k].parentId;
    }
    forall i, j | 0 <= i < |b| && 0 <= j < |b| && Siblings(b, i, j) && b[i].visits >= 2
      ensures b[j].visits >= 1
    {
      assert Siblings(a, i, j);
    }
    forall p, j | 0 <= p < |b| && 0 <= j < |b| && ChildOf(b, p, j)
      ensures b[p].expanded
    {
      assert ChildOf(a, p, j);
    }
  }

  lemma ScoredRoundRobin(ns: seq<Node>, leaf: nat, bs: seq<Branch>, scored: seq<Node>)
    requires Registry(ns) && leaf < |ns| && RoundRobin(ns) && bs != [] && Children(ns, leaf) == []
    requires |scored| == |ns| + |bs| && SameButScore(Grown(ns, leaf, bs), scored)
    ensures RoundRobin(scored)
  {
    forall i, j | 0 <= i < |scored| && 0 <= j < |scored| && Siblings(scored, i, j) && scored[i].visits >= 2
      ensures scored[j].visits >= 1
    {
      assert i < |ns|;
      if ChildOf(ns, leaf, i) { ChildListed(ns, leaf, |ns|, i); }
      assert j < |ns| && Siblings(ns, i, j);
    }
  }

  lemma ScoredExpanded(ns: seq<Node>, leaf: nat, bs: seq<Branch>, scored: seq<Node>)
    requires Registry(ns) && leaf < |ns| && ChildrenExpanded(ns) && FreshIds(ns, bs) && bs != []
    requires Registry(scored) && |scored| == |ns| + |bs| && SameButScore(Grown(ns, leaf, bs), scored)
    ensures ChildrenExpanded(scored)
  {
    GrownRegistry(ns, leaf, bs);
    LinksKeepRegistry(Grown(ns, leaf, bs), scored);
    forall p, j | 0 <= p < |scored| && 0 <= j < |scored| && ChildOf(scored, p, j)
      ensures scored[p].expanded
    {
      ParentUnique(scored, j, p);
      if j < |ns| { assert ChildOf(ns, p, j); }
    }
  }

  ghost predicate SameButScore(a: seq<Node>, b: seq<Node>) {
    && |a| == |b|
    && forall i :: 0 <= i < |a| ==> b[i] == a[i].(score := b[i].score)
  }

  /** One fair backpropagation of `reward` from node i away from the invariant. */
  ghost predicate Awaiting(ns: seq<Node>, i: nat, reward: real, maxDepth: nat) {
    && Registry(ns) && i < |ns| && BalancedExcept(ns, i, reward) && RoundRobin(ns) && FairChain(ns, i)
    && ChildrenExpanded(ns) && DepthCapped(ns, maxDepth)
  }

  /** The grown tree with its first new child scored. */
  ghost predicate FirstScored(ns: seq<Node>, leaf: nat, bs: seq<Branch>, scored: seq<Node>, reward: real) {
    && leaf < |ns| && bs != []
    && scored == Grown(ns, leaf, bs)[|ns| := Grown(ns, leaf, bs)[|ns|].(score := reward)]
  }

  lemma ScoredShape(ns: seq<Node>, leaf: nat, bs: seq<Branch>, scored: seq<Node>, reward: real, maxDepth: nat)
    requires FirstScored(ns, leaf, bs, scored, reward) && DepthCapped(ns, maxDepth) && ns[leaf].depth < maxDepth
    ensures |scored| == |ns| + |bs| && SameButScore(Grown(ns, leaf, bs), scored)
    ensures DepthCapped(scored, maxDepth) && Fair(scored, |ns|)
  {
  }

  lemma ScoredRegistry(ns: seq<Node>, leaf: nat, bs: seq<Branch>, scored: seq<Node>, reward: real)
    requires Registry(ns) && FirstScored(ns, leaf, bs, scored, reward) && FreshIds(ns, bs) && FairChain(ns, leaf)
    requires |scored| == |ns| + |bs| && Children(ns, leaf) == []
    ensures Registry(scored) && Parent(scored, |ns|) == leaf && FairChain(scored, leaf)
  {
    GrownRegistry(ns, leaf, bs);
    LinksKeepRegistry(Grown(ns, leaf, bs), scored);
    GrownKeepsFairChain(ns, leaf, bs, scored, leaf);
  }

  lemma ScoredAwaits(ns: seq<Node>, leaf: nat, bs: seq<Branch>, scored: seq<Node>, reward: real, maxDepth: nat)
    requires Inv(ns, maxDepth) && leaf < |ns| && FreshIds(ns, bs) && bs != []
    requires Children(ns, leaf) == [] && ns[leaf].depth < maxDepth && FairChain(ns, leaf)
    requires var grown := Grown(ns, leaf, bs); scored == grown[|ns| := grown[|ns|].(score := reward)]
    ensures Awaiting(scored, |ns|, reward, maxDepth)
  {
    hide Grown, BalancedExcept, RoundRobin, ChildrenExpanded, DepthCapped, Fair, Registry, SameButScore, Conserved, FreshIds, Children;
    ScoredShape(ns, leaf, bs, scored, reward, maxDepth);
    ScoredRegistry(ns, leaf, bs, scored, reward);
    GrownOwesFirstChild(ns, leaf, bs, reward);
    ScoredRoundRobin(ns, leaf, bs, scored);
    ScoredExpanded(ns, leaf, bs, scored);
  }

  lemma BackpropKeepsInv(ns: seq<Node>, i: nat, reward: real, maxDepth: nat)
    requires Awaiting(ns, i, reward, maxDepth)
    ensures Inv(Backprop(ns, i, reward), maxDepth)
    ensures Backprop(ns, i, reward)[0].visits == ns[0].visits + 1
  {
    BackpropConserves(ns, i, reward);
    BackpropRoundRobin(ns, i, reward);
    ShapeKeepsExpanded(ns, Backprop(ns, i, reward));
  }

  lemma ShapeKeepsExpanded(a: seq<Node>, b: seq<Node>)
    requires SameShape(a, b) && ChildrenExpanded(a)
    ensures ChildrenExpanded(b)
  {
    forall p, j | 0 <= p < |b| && 0 <= j < |b| && ChildOf(b, p, j)
      ensures b[p].expanded
    {
      assert ChildOf(a, p, j);
    }
  }

  /** The simulation grew the tree and reached backpropagation. */
  ghost predicate Productive(cfg: Config, st: Search)
    requires Ready(cfg, st)
  {
    Expands(cfg, st) && cfg.branching > 0
  }

  function Cost(input: SimInput): nat {
    BranchCost(input.branches) + RolloutCost(input.rollout)
  }

  /** Every simulation keeps conservation, fairness, depth and registry laws; the root gains a
      visit exactly when the simulation was productive, and every token is counted. */
  lemma StepKeepsInv(cfg: Config, st: Search, input: SimInput)
    requires Ready(cfg, st) && Fits(cfg, st, input)
    ensures var next := SimStep(cfg, st, input);
            && Ready(cfg, next)
            && next.nodes[0].visits == st.nodes[0].visits + (if Productive(cfg, st) then 1 else 0)
            && next.tokens == st.tokens + Cost(input)
  {
    var ns, leaf, next := st.nodes, SelectedLeaf(cfg, st), SimStep(cfg, st, input);
    SelectStops(ns, 0, cfg.maxDepth, cfg.explore);
    if !Productive(cfg, st) {
      FlagsKeepInv(ns, next.nodes, cfg.maxDepth);
    } else {
      if !ns[leaf].expanded { NoChildren(ns, leaf, |ns|); }
      SelectFair(ns, 0, cfg.maxDepth, cfg.explore);
      var (scored, reward) := Simulated(cfg, ns, leaf, input);
      ScoredAwaits(ns, leaf, input.branches, scored, reward, cfg.maxDepth);
      BackpropKeepsInv(scored, |ns|, reward, cfg.maxDepth);
    }
    ConservedCountsNest(next.nodes);
  }

  lemma {:induction false} NoChildren(ns: seq<Node>, p: nat, n: nat)
    requires p < |ns| && n <= |ns| && forall j :: 0 <= j < n ==> !ChildOf(ns, p, j)
    ensures ChildrenBelow(ns, p, n) == []
  {
    if n == 0 {
    } else {
      NoChildren(ns, p, n - 1);
    }
  }

  // ---------- runs ----------

  ghost predicate Initial(st: Search) {
    && st.tokens == 0 && |st.nodes| == 1
    && var root := st.nodes[0];
       && root.parentId.None? && root.depth == 0 && root.visits == 0
       && root.total == 0.0 && root.score == 0.0 && !root.expanded
  }

  lemma InitialReady(cfg: Config, st: Search)
    requires Initial(st)
    ensures Ready(cfg, st)
  {
    assert !FirstBorn(st.nodes, 0);
    assert ChildVisits(st.nodes, st.nodes[0].id, 1) == ChildVisits(st.nodes, st.nodes[0].id, 0);
    assert ChildTotals(st.nodes, st.nodes[0].id, 1) == ChildTotals(st.nodes, st.nodes[0].id, 0);
    assert Balanced(st.nodes, 0, 0, 0.0);
  }

  ghost predicate StepsTo(cfg: Config, st: Search, input: SimInput, next: Search) {
    Ready(cfg, st) && Fits(cfg, st, input) && st.tokens < cfg.budget && next == SimStep(cfg, st, input)
  }

  /** The states between the simulations of one search; each simulation starts under budget. */
  ghost predicate IsRun(cfg: Config, states: seq<Search>, inputs: seq<SimInput>) {
    && |states| == |inputs| + 1 && Initial(states[0])
    && forall k :: 0 <= k < |inputs| ==> StepsTo(cfg, states[k], inputs[k], states[k + 1])
  }

  ghost function ProductiveCount(cfg: Config, states: seq<Search>, n: nat): nat
    requires n <= |states| && (forall k :: 0 <= k < n ==> Ready(cfg, states[k]))
  {
    if n == 0 then 0
    else ProductiveCount(cfg, states, n - 1) + if Productive(cfg, states[n - 1]) then 1 else 0
  }

  /** In every state of every run the laws hold and the root's visits count the simulations
      that expanded. */
  lemma {:induction false} RunInvariant(cfg: Config, states: seq<Search>, inputs: seq<SimInput>, k: nat)
    requires IsRun(cfg, states, inputs) && k < |states|
    ensures Ready(cfg, states[k]) && forall j :: 0 <= j <= k ==> Ready(cfg, states[j])
    ensures states[k].nodes[0].visits == ProductiveCount(cfg, states, k)
  {
    if k == 0 {
      InitialReady(cfg, states[0]);
    } else {
      RunInvariant(cfg, states, inputs, k - 1);
      assert StepsTo(cfg, states[k - 1], inputs[k - 1], states[k]);
      StepKeepsInv(cfg, states[k - 1], inputs[k - 1]);
    }
  }

  // ---------- the depth cap freezes the search ----------

  ghost predicate SameButTerminal(a: seq<Node>, b: seq<Node>) {
    && |a| == |b|
    && forall i :: 0 <= i < |a| ==> b[i] == a[i].(terminal := b[i].terminal)
  }

  lemma {:induction false} ChildrenIgnoreTerminal(a: seq<Node>, b: seq<Node>, p: nat, n: nat)
    requires SameButTerminal(a, b) && p < |a| && n <= |a|
    ensures ChildrenBelow(a, p, n) == ChildrenBelow(b, p, n)
  {
    if n == 0 {
    } else {
      ChildrenIgnoreTerminal(a, b, p, n - 1);
    }
  }

  lemma {:induction false} SelectIgnoresTerminal(a: seq<Node>, b: seq<Node>, from: nat, maxDepth: nat, explore: (nat, nat) -> real)
    requires SameButTerminal(a, b) && Registry(a) && Registry(b) && CountsNest(a) && CountsNest(b) && from < |a|
    ensures Select(a, from, maxDepth, explore) == Select(b, from, maxDepth, explore)
    decreases |a| - from
  {
    ChildrenIgnoreTerminal(a, b, from, |a|);
    if a[from].expanded && a[from].depth < maxDepth && Children(a, from) != [] {
      assert UctKeys(a, from, explore) == UctKeys(b, from, explore);
      SelectIgnoresTerminal(a, b, BestChild(a, from, explore), maxDepth, explore);
    }
  }

  /** `b` is `a`, at the depth cap, with the selected leaf marked terminal, and will select it again. */
  ghost predicate Frozen(cfg: Config, a: Search, b: Search) {
    && Ready(cfg, a) && Ready(cfg, b) && !Expands(cfg, a) && !Expands(cfg, b)
    && SelectedLeaf(cfg, b) == SelectedLeaf(cfg, a) && b.tokens == a.tokens
    && b.nodes == a.nodes[SelectedLeaf(cfg, a) := a.nodes[SelectedLeaf(cfg, a)].(terminal := true)]
  }

  /** A simulation that does not expand only marks its leaf. */
  lemma CapMarks(cfg: Config, st: Search, input: SimInput)
    requires Ready(cfg, st) && Fits(cfg, st, input) && !Expands(cfg, st)
    ensures var next, leaf := SimStep(cfg, st, input), SelectedLeaf(cfg, st);
            next.nodes == st.nodes[leaf := st.nodes[leaf].(terminal := true)] && next.tokens == st.tokens
  {
    hide Select, Registry, CountsNest, Inv;
  }

  lemma CapStep(cfg: Config, st: Search, input: SimInput)
    requires Ready(cfg, st) && Fits(cfg, st, input) && !Expands(cfg, st)
    ensures Frozen(cfg, st, SimStep(cfg, st, input))
  {
    hide SimStep, Select, Inv, Fits;
    StepKeepsInv(cfg, st, input);
    CapMarks(cfg, st, input);
    MarkedSelects(cfg, st, SimStep(cfg, st, input));
  }

  lemma MarkedSelects(cfg: Config, a: Search, b: Search)
    requires Ready(cfg, a) && Ready(cfg, b)
    requires var leaf := SelectedLeaf(cfg, a); b.nodes == a.nodes[leaf := a.nodes[leaf].(terminal := true)]
    ensures SelectedLeaf(cfg, b) == SelectedLeaf(cfg, a) && Expands(cfg, b) == Expands(cfg, a)
  {
    hide Select;
    SelectIgnoresTerminal(a.nodes, b.nodes, 0, cfg.maxDepth, cfg.explore);
  }

  lemma FrozenAgain(cfg: Config, a: Search, b: Search, c: Search)
    requires Frozen(cfg, a, b) && Frozen(cfg, b, c)
    ensures Frozen(cfg, a, c)
  {
    hide Ready, Expands, SelectedLeaf;
  }

  /** Once selection has returned a node at the depth cap, it returns it forever: from the next
      state on, neither the tree nor the token total changes again. */
  lemma {:induction false} CapFreezes(cfg: Config, states: seq<Search>, inputs: seq<SimInput>, k: nat, m: nat)
    requires IsRun(cfg, states, inputs) && k < m < |states|
    requires Ready(cfg, states[k]) && !Expands(cfg, states[k])
    ensures Ready(cfg, states[m]) && SelectedLeaf(cfg, states[m]) == SelectedLeaf(cfg, states[k])
    ensures !Expands(cfg, states[m])
    ensures states[m].nodes == states[k].nodes[SelectedLeaf(cfg, states[k]) :=
                                 states[k].nodes[SelectedLeaf(cfg, states[k])].(terminal := true)]
    ensures states[m].tokens == states[k].tokens
  {
    hide Ready, Expands, SelectedLeaf, Fits, SimStep;
    StaysFrozen(cfg, states, inputs, k, m);
  }

  lemma {:induction false} StaysFrozen(cfg: Config, states: seq<Search>, inputs: seq<SimInput>, k: nat, m: nat)
    requires IsRun(cfg, states, inputs) && k < m < |states|
    requires Ready(cfg, states[k]) && !Expands(cfg, states[k])
    ensures Frozen(cfg, states[k], states[m])
  {
    hide Ready, Expands, Fits, SimStep;
    assert StepsTo(cfg, states[m - 1], inputs[m - 1], states[m]);
    if m - 1 > k {
      StaysFrozen(cfg, states, inputs, k, m - 1);
      CapStep(cfg, states[m - 1], inputs[m - 1]);
      FrozenAgain(cfg, states[k], states[m - 1], states[m]);
    } else {
      CapStep(cfg, states[m - 1], inputs[m - 1]);
    }
  }

  /** Productive simulations form a prefix of every run. */
  lemma ProductivePrefix(cfg: Config, states: seq<Search>, inputs: seq<SimInput>, k: nat, m: nat)
    requires IsRun(cfg, states, inputs) && k <= m < |states|
    ensures Ready(cfg, states[k]) && Ready(cfg, states[m])
    ensures Productive(cfg, states[m]) ==> Productive(cfg, states[k])
  {
    RunInvariant(cfg, states, inputs, m);
    if k < m && !Expands(cfg, states[k]) { CapFreezes(cfg, states, inputs, k, m); }
  }

  // ---------- the token budget ----------

  ghost predicate SendsWithin(input: SimInput, bound: nat) {
    && (forall k :: 0 <= k < |input.branches| ==>
          input.branches[k].attackerTokens <= bound && input.branches[k].targetTokens <= bound)
    && (forall k :: 0 <= k < |input.rollout| ==>
          input.rollout[k].attackerTokens <= bound && input.rollout[k].targetTokens <= bound)
  }

  lemma {:induction false} BranchCostWithin(bs: seq<Branch>, perTurn: nat)
    requires forall k :: 0 <= k < |bs| ==> bs[k].attackerTokens + bs[k].targetTokens <= perTurn
    ensures BranchCost(bs) <= |bs| * perTurn
  {
    if bs == [] {
    } else {
      BranchCostWithin(bs[..|bs| - 1], perTurn);
      assert |bs| * perTurn == (|bs| - 1) * perTurn + perTurn;
    }
  }

  lemma {:induction false} RolloutCostWithin(xs: seq<Exchange>, perTurn: nat)
    requires forall k :: 0 <= k < |xs| ==> xs[k].attackerTokens + xs[k].targetTokens <= perTurn
    ensures RolloutCost(xs) <= |xs| * perTurn
  {
    if xs == [] {
    } else {
      RolloutCostWithin(xs[..|xs| - 1], perTurn);
      assert |xs| * perTurn == (|xs| - 1) * perTurn + perTurn;
    }
  }

  /** Every send counts once: changing what one costs moves the total by just that much. */
  lemma {:induction false} BranchSendsCount(bs: seq<Branch>, k: nat, attacker: nat, target: nat)
    requires k < |bs|
    ensures BranchCost(bs[k := bs[k].(attackerTokens := attacker, targetTokens := target)])
            == BranchCost(bs) - bs[k].attackerTokens - bs[k].targetTokens + attacker + target
  {
    var n := |bs| - 1;
    var changed := bs[k := bs[k].(attackerTokens := attacker, targetTokens := target)];
    if k < n {
      hide BranchCost;
      BranchSendsCount(bs[..n], k, attacker, target);
      assert changed[..n] == bs[..n][k := changed[k]];
      BranchCostLast(bs);
      BranchCostLast(changed);
    } else {
      assert changed[..n] == bs[..n];
    }
  }

  lemma BranchCostLast(bs: seq<Branch>)
    requires bs != []
    ensures var n := |bs| - 1;
            BranchCost(bs) == BranchCost(bs[..n]) + bs[n].attackerTokens + bs[n].targetTokens
  {
  }

  lemma {:induction false} RolloutSendsCount(xs: seq<Exchange>, k: nat, attacker: nat, target: nat)
    requires k < |xs|
    ensures RolloutCost(xs[k := xs[k].(attackerTokens := attacker, targetTokens := target)])
            == RolloutCost(xs) - xs[k].attackerTokens - xs[k].targetTokens + attacker + target
  {
    var n := |xs| - 1;
    var changed := xs[k := xs[k].(attackerTokens := attacker, targetTokens := target)];
    if k < n {
      hide RolloutCost;
      RolloutSendsCount(xs[..n], k, attacker, target);
      assert changed[..n] == xs[..n][k := changed[k]];
      RolloutCostLast(xs);
      RolloutCostLast(changed);
    } else {
      assert changed[..n] == xs[..n];
    }
  }

  lemma RolloutCostLast(xs: seq<Exchange>)
    requires xs != []
    ensures var n := |xs| - 1;
            RolloutCost(xs) == RolloutCost(xs[..n]) + xs[n].attackerTokens + xs[n].targetTokens
  {
  }

  lemma CostWithin(b: nat, r: nat, branching: nat, turns: nat, perTurn: nat)
    requires b <= branching && r <= turns
    ensures b * perTurn + r * perTurn <= (branching + turns) * perTurn
  {
    assert b * perTurn <= branching * perTurn && r * perTurn <= turns * perTurn;
  }

  /** If no send costs more than `bound` tokens, a run that simulates at all ends below its
      budget plus the cost of one simulation. */
  lemma TokensWithinBudget(cfg: Config, states: seq<Search>, inputs: seq<SimInput>, bound: nat)
    requires IsRun(cfg, states, inputs) && inputs != []
    requires forall k :: 0 <= k < |inputs| ==> SendsWithin(inputs[k], bound)
    ensures states[|inputs|].tokens < cfg.budget + (cfg.branching + cfg.rolloutTurns) * (2 * bound)
  {
    var last := |inputs| - 1;
    var input := inputs[last];
    assert StepsTo(cfg, states[last], input, states[last + 1]);
    StepKeepsInv(cfg, states[last], input);
    assert SendsWithin(input, bound);
    BranchCostWithin(input.branches, 2 * bound);
    RolloutCostWithin(input.rollout, 2 * bound);
    CostWithin(|input.branches|, |input.rollout|, cfg.branching, cfg.rolloutTurns, 2 * bound);
  }

  // ---------- the answer of a search ----------

  function VisitedBelow(ns: seq<Node>, n: nat): (vs: seq<nat>)
    requires n <= |ns|
    ensures forall k :: 0 <= k < |vs| ==> vs[k] < n && ns[vs[k]].depth > 0 && ns[vs[k]].visits > 0
    ensures Ascending(vs, n)
  {
    if n == 0 then []
    else if ns[n - 1].depth > 0 && ns[n - 1].visits > 0 then VisitedBelow(ns, n - 1) + [n - 1]
    else VisitedBelow(ns, n - 1)
  }

  lemma {:induction false} VisitedListed(ns: seq<Node>, n: nat, j: nat)
    requires j < n <= |ns| && ns[j].depth > 0 && ns[j].visits > 0
    ensures j in VisitedBelow(ns, n)
  {
    if j < n - 1 { VisitedListed(ns, n - 1, j); }
  }

  function AverageKeys(ns: seq<Node>, vs: seq<nat>): (keys: seq<Key>)
    requires forall k :: 0 <= k < |vs| ==> vs[k] < |ns| && ns[vs[k]].visits > 0
    ensures |keys| == |vs|
  {
    seq(|vs|, k requires 0 <= k < |vs| => Finite(ns[vs[k]].total / ns[vs[k]].visits as real))
  }

  /** The first visited non-root node with the highest average reward, else the root. */
  function BestLeaf(ns: seq<Node>): (best: nat)
    requires ns != []
    ensures best < |ns|
  {
    var vs := VisitedBelow(ns, |ns|);
    if vs == [] then 0 else vs[FirstMax(AverageKeys(ns, vs))]
  }

  /** No visited node averages more than the answer and no earlier one as much, and the answer is the
      root only when no simulation was productive. */
  lemma BestLeafIsBest(cfg: Config, states: seq<Search>, inputs: seq<SimInput>, j: nat)
    requires IsRun(cfg, states, inputs) && j < |states[|inputs|].nodes|
    ensures var ns := states[|inputs|].nodes;
            var best := BestLeaf(ns);
            && (forall k :: 0 <= k < |states| ==> Ready(cfg, states[k]))
            && (ns[j].depth > 0 && ns[j].visits > 0 ==>
                  best > 0 && ns[best].visits > 0 &&
                  ns[j].total / ns[j].visits as real <= ns[best].total / ns[best].visits as real
                  && (j < best ==> ns[j].total / ns[j].visits as real < ns[best].total / ns[best].visits as real))
            && (best == 0 <==> ProductiveCount(cfg, states, |inputs|) == 0)
  {
    hide BestLeaf, Conserved, RoundRobin;
    RunInvariant(cfg, states, inputs, |inputs|);
    var ns := states[|inputs|].nodes;
    if ns[j].depth > 0 && ns[j].visits > 0 { BestLeafAverages(ns, j); }
    RootVisitedIffSomeChild(ns);
  }

  lemma BestLeafAverages(ns: seq<Node>, j: nat)
    requires j < |ns| && ns[j].depth > 0 && ns[j].visits > 0 && ns[0].depth == 0
    ensures var best := BestLeaf(ns);
            && best > 0 && ns[best].visits > 0
            && ns[j].total / ns[j].visits as real <= ns[best].total / ns[best].visits as real
            && (j < best ==> ns[j].total / ns[j].visits as real < ns[best].total / ns[best].visits as real)
  {
    hide FirstMax, VisitedBelow;
    var vs := VisitedBelow(ns, |ns|);
    VisitedListed(ns, |ns|, j);
    var k :| 0 <= k < |vs| && vs[k] == j;
    var keys := AverageKeys(ns, vs);
    var m := FirstMax(keys);
    assert !keys[m].Below(keys[k]) && (k < m ==> keys[k].Below(keys[m]));
    assert k < m <==> vs[k] < vs[m];
  }

  lemma RootVisitedIffSomeChild(ns: seq<Node>)
    requires Registry(ns) && Conserved(ns)
    ensures BestLeaf(ns) == 0 <==> ns[0].visits == 0
  {
    var vs := VisitedBelow(ns, |ns|);
    assert Balanced(ns, 0, 0, 0.0);
    if BestLeaf(ns) == 0 {
      forall k | 0 <= k < |ns| && ns[k].parentId == Some(ns[0].id)
        ensures ns[k].visits == 0
      {
        assert ParentAt(ns, k, Parent(ns, k));
        if ns[k].visits > 0 { VisitedListed(ns, |ns|, k); }
      }
      NoVisitedChild(ns, ns[0].id, |ns|);
    } else {
      VisitedHasVisitedRoot(ns, BestLeaf(ns));
    }
  }

  lemma {:induction false} NoVisitedChild(ns: seq<Node>, p: Id, n: nat)
    requires n <= |ns| && forall k :: 0 <= k < n && ns[k].parentId == Some(p) ==> ns[k].visits == 0
    ensures ChildVisits(ns, p, n) == 0
  {
    if n == 0 {
    } else {
      NoVisitedChild(ns, p, n - 1);
    }
  }

  lemma {:induction false} VisitedHasVisitedRoot(ns: seq<Node>, i: nat)
    requires Registry(ns) && Conserved(ns) && i < |ns| && ns[i].visits > 0
    ensures ns[0].visits > 0
    decreases i
  {
    if i == 0 {
    } else {
      ConservedCountsNest(ns);
      VisitedHasVisitedRoot(ns, Parent(ns, i));
    }
  }
}
