/** Which leaf selection reaches, what reward a simulation credits and what it adds to the tree,
    told from the fields of the nodes alone. */
module MctsSelection {
  import opened Common
  import opened MctsSpec
  import opened MctsRun

  // ---------- the preferred child ----------

  /** Standing at p, child c goes before child j: a new node before a visited one, the earlier of
      two new ones, and of two visited ones the one with the higher average reward plus exploration
      bonus, the earlier one on a tie. */
  ghost predicate Preferred(ns: seq<Node>, p: nat, c: nat, j: nat, explore: (nat, nat) -> real)
    requires p < |ns| && c < |ns| && j < |ns|
  {
    if ns[c].visits == 0 then ns[j].visits > 0 || c <= j
    else
      ns[j].visits > 0 &&
      var lead := ns[c].total / ns[c].visits as real - ns[j].total / ns[j].visits as real
                  + explore(ns[p].visits, ns[c].visits) - explore(ns[p].visits, ns[j].visits);
      if c <= j then lead >= 0.0 else lead > 0.0
  }

  /** Node c is the child that a walk standing at p goes to. */
  ghost predicate Favourite(ns: seq<Node>, p: nat, c: nat, explore: (nat, nat) -> real)
    requires p < |ns| && c < |ns|
  {
    ChildOf(ns, p, c) && forall j :: 0 <= j < |ns| && ChildOf(ns, p, j) ==> Preferred(ns, p, c, j, explore)
  }

  lemma BestChildFavourite(ns: seq<Node>, p: nat, explore: (nat, nat) -> real)
    requires Registry(ns) && p < |ns| && CountsNest(ns) && Children(ns, p) != []
    ensures Favourite(ns, p, BestChild(ns, p, explore), explore)
  {
    hide Preferred, BestChild, UctKeys, FirstMax, Children, ChildrenBelow;
    var c := BestChild(ns, p, explore);
    forall j | 0 <= j < |ns| && ChildOf(ns, p, j)
      ensures Preferred(ns, p, c, j, explore)
    {
      ChildInList(ns, p, j);
      BestChildPreferred(ns, p, explore, j);
    }
  }

  lemma BestChildPreferred(ns: seq<Node>, p: nat, explore: (nat, nat) -> real, j: nat)
    requires Registry(ns) && p < |ns| && CountsNest(ns) && j < |ns| && j in Children(ns, p)
    ensures Preferred(ns, p, BestChild(ns, p, explore), j, explore)
  {
    hide FirstMax, ChildrenBelow;
    var cs, keys := Children(ns, p), UctKeys(ns, p, explore);
    var m := FirstMax(keys);
    var k :| 0 <= k < |cs| && cs[k] == j;
    assert !keys[m].Below(keys[k]) && (k < m ==> keys[k].Below(keys[m]));
    assert k < m <==> cs[k] < cs[m];
  }

  lemma OneFavourite(ns: seq<Node>, p: nat, a: nat, b: nat, explore: (nat, nat) -> real)
    requires p < |ns| && a < |ns| && b < |ns| && Favourite(ns, p, a, explore) && Favourite(ns, p, b, explore)
    ensures a == b
  {
    assert Preferred(ns, p, a, b, explore) && Preferred(ns, p, b, a, explore);
  }

  // ---------- the whole walk ----------

  /** A walk that reaches node i goes on to a child. */
  ghost predicate GoesOn(ns: seq<Node>, i: nat, maxDepth: nat)
    requires i < |ns|
  {
    ns[i].expanded && ns[i].depth < maxDepth && exists j :: 0 <= j < |ns| && ChildOf(ns, i, j)
  }

  /** Every step of the walk from the root to i goes on to the favourite child. */
  ghost predicate Reached(ns: seq<Node>, i: nat, maxDepth: nat, explore: (nat, nat) -> real)
    requires Registry(ns) && i < |ns|
    decreases i
  {
    i == 0 ||
    var p := Parent(ns, i);
    GoesOn(ns, p, maxDepth) && Favourite(ns, p, i, explore) && Reached(ns, p, maxDepth, explore)
  }

  lemma HasChildrenIff(ns: seq<Node>, p: nat)
    requires p < |ns|
    ensures Children(ns, p) != [] <==> exists j :: 0 <= j < |ns| && ChildOf(ns, p, j)
  {
    if Children(ns, p) != [] { assert ChildOf(ns, p, Children(ns, p)[0]); }
    if j :| 0 <= j < |ns| && ChildOf(ns, p, j) { ChildInList(ns, p, j); }
  }

  lemma {:induction false} SelectReached(ns: seq<Node>, from: nat, maxDepth: nat, explore: (nat, nat) -> real)
    requires Registry(ns) && CountsNest(ns) && from < |ns| && Reached(ns, from, maxDepth, explore)
    ensures var leaf := Select(ns, from, maxDepth, explore);
            Reached(ns, leaf, maxDepth, explore) && !GoesOn(ns, leaf, maxDepth)
    decreases |ns| - from
  {
    hide BestChild, Children, Favourite;
    HasChildrenIff(ns, from);
    if GoesOn(ns, from, maxDepth) {
      var c := BestChild(ns, from, explore);
      BestChildFavourite(ns, from, explore);
      ParentUnique(ns, c, from);
      SelectReached(ns, c, maxDepth, explore);
    }
  }

  lemma {:induction false} ReachedOnWay(ns: seq<Node>, i: nat, maxDepth: nat, explore: (nat, nat) -> real)
    requires Registry(ns) && CountsNest(ns) && i < |ns| && Reached(ns, i, maxDepth, explore)
    ensures Select(ns, 0, maxDepth, explore) == Select(ns, i, maxDepth, explore)
    decreases i
  {
    hide BestChild, Children, Favourite;
    if i > 0 {
      var p := Parent(ns, i);
      ReachedOnWay(ns, p, maxDepth, explore);
      HasChildrenIff(ns, p);
      BestChildFavourite(ns, p, explore);
      OneFavourite(ns, p, i, BestChild(ns, p, explore), explore);
    }
  }

  /** Selection returns the one node where a walk that always goes on to the favourite child stops:
      at a node that is not expanded, at the depth cap, or without children. */
  lemma SelectIff(ns: seq<Node>, maxDepth: nat, explore: (nat, nat) -> real, i: nat)
    requires Registry(ns) && CountsNest(ns) && i < |ns|
    ensures Select(ns, 0, maxDepth, explore) == i <==> Reached(ns, i, maxDepth, explore) && !GoesOn(ns, i, maxDepth)
  {
    hide BestChild, Children, Favourite, Reached;
    RootReached(ns, maxDepth, explore);
    SelectReached(ns, 0, maxDepth, explore);
    if Reached(ns, i, maxDepth, explore) && !GoesOn(ns, i, maxDepth) {
      ReachedOnWay(ns, i, maxDepth, explore);
      HasChildrenIff(ns, i);
    }
  }

  lemma RootReached(ns: seq<Node>, maxDepth: nat, explore: (nat, nat) -> real)
    requires Registry(ns)
    ensures Reached(ns, 0, maxDepth, explore)
  {
  }

  lemma {:induction false} ReachedStep(ns: seq<Node>, i: nat, maxDepth: nat, explore: (nat, nat) -> real, k: nat)
    requires Registry(ns) && i < |ns| && Reached(ns, i, maxDepth, explore) && 0 < k < |Path(ns, i)|
    ensures Favourite(ns, Path(ns, i)[k - 1], Path(ns, i)[k], explore)
    decreases i
  {
    hide Favourite, GoesOn;
    if i > 0 && k < |Path(ns, i)| - 1 { ReachedStep(ns, Parent(ns, i), maxDepth, explore, k); }
  }

  /** Nowhere on the way to the selected leaf is a visited child passed over for a sibling with as
      many visits and a lower average reward, or for a later sibling with the same average. */
  lemma HigherAverageFirst(ns: seq<Node>, maxDepth: nat, explore: (nat, nat) -> real, k: nat, j: nat)
    requires Registry(ns) && CountsNest(ns) && j < |ns|
    requires var path := Path(ns, Select(ns, 0, maxDepth, explore));
             && 0 < k < |path| && Siblings(ns, path[k], j) && ns[j].visits == ns[path[k]].visits > 0
    ensures var c := Path(ns, Select(ns, 0, maxDepth, explore))[k];
            && ns[j].total / ns[j].visits as real <= ns[c].total / ns[c].visits as real
            && (j < c ==> ns[j].total / ns[j].visits as real < ns[c].total / ns[c].visits as real)
  {
    hide Select, Path, Reached;
    var leaf := Select(ns, 0, maxDepth, explore);
    SelectIff(ns, maxDepth, explore, leaf);
    ReachedStep(ns, leaf, maxDepth, explore, k);
    var p, c := Path(ns, leaf)[k - 1], Path(ns, leaf)[k];
    assert ChildOf(ns, p, j) && Preferred(ns, p, c, j, explore);
  }

  // ---------- what a simulation credits and adds ----------

  /** The judge's score of the last thing said on the way from the root to a node: of the node's own
      exchange, or of its nearest ancestor's if it has none. */
  ghost function LastScore(judge: (string, string) -> real, ns: seq<Node>, i: nat): real
    requires Registry(ns) && i < |ns|
    decreases i
  {
    if i == 0 then 0.0
    else if ns[i].prompt != "" then judge(ns[i].prompt, ns[i].response)
    else LastScore(judge, ns, Parent(ns, i))
  }

  ghost function Said(ns: seq<Node>): nat -> Option<(string, string)> {
    (i: nat) => if i < |ns| && ns[i].depth > 0 && ns[i].prompt != "" then Some((ns[i].prompt, ns[i].response)) else None
  }

  lemma {:induction false} HistoryKept(ns: seq<Node>, path: seq<nat>)
    requires forall k :: 0 <= k < |path| ==> path[k] < |ns|
    ensures History(ns, path) == Kept(path, Said(ns))
  {
    if path == [] {
    } else {
      HistoryKept(ns, path[..|path| - 1]);
    }
  }

  /** A history holds, in order, the exchanges of exactly those nodes of a path that are below the
      root and have a prompt. */
  lemma HistoryTells(ns: seq<Node>, path: seq<nat>) returns (ix: seq<nat>)
    requires forall k :: 0 <= k < |path| ==> path[k] < |ns|
    ensures Picks(path, History(ns, path), ix, (i: nat) =>
              if i < |ns| && ns[i].depth > 0 && ns[i].prompt != "" then Some((ns[i].prompt, ns[i].response)) else None)
  {
    hide History, Kept;
    HistoryKept(ns, path);
    ix := KeptPicks(path, Said(ns));
  }

  lemma {:induction false} RewardOfHistory(judge: (string, string) -> real, ns: seq<Node>, i: nat)
    requires Registry(ns) && i < |ns|
    ensures Reward(judge, History(ns, Path(ns, i))) == LastScore(judge, ns, i)
    decreases i
  {
    hide History, Registry;
    if i == 0 {
      RootSilent(ns);
    } else {
      var p := Parent(ns, i);
      assert ParentAt(ns, i, p);
      RewardOfHistory(judge, ns, p);
      HistorySnoc(ns, Path(ns, p), i);
    }
  }

  lemma RootSilent(ns: seq<Node>)
    requires Registry(ns)
    ensures History(ns, Path(ns, 0)) == []
  {
    var none: seq<nat> := [];
    assert [0][..0] == none && History(ns, none) == [];
  }

  lemma {:induction false} BackpropShape(ns: seq<Node>, i: nat, reward: real)
    requires Registry(ns) && i < |ns|
    ensures SameShape(ns, Backprop(ns, i, reward)) && Registry(Backprop(ns, i, reward))
    decreases i
  {
    hide Registry;
    var bumped := ns[i := Bump(ns[i], reward)];
    LinksKeepRegistry(ns, bumped);
    if i > 0 {
      assert ParentAt(ns, i, Parent(ns, i));
      BackpropShape(bumped, Parent(ns, i), reward);
    }
  }

  lemma {:induction false} SameLastScore(judge: (string, string) -> real, a: seq<Node>, b: seq<Node>, i: nat)
    requires Registry(a) && Registry(b) && SameLinks(a, b) && i < |a|
    requires forall k :: 0 <= k < |a| ==> a[k].prompt == b[k].prompt && a[k].response == b[k].response
    ensures LastScore(judge, a, i) == LastScore(judge, b, i)
    decreases i
  {
    if i > 0 {
      LinksKeepRegistry(a, b);
      SameLastScore(judge, a, b, Parent(a, i));
    }
  }

  lemma SimStepIs(cfg: Config, st: Search, input: SimInput)
    requires Ready(cfg, st) && Fits(cfg, st, input) && input.branches != []
    requires st.nodes[SelectedLeaf(cfg, st)].depth < cfg.maxDepth
    ensures FreshIds(st.nodes, input.branches)
    ensures var (scored, reward) := Simulated(cfg, st.nodes, SelectedLeaf(cfg, st), input);
            SimStep(cfg, st, input).nodes == Backprop(scored, |st.nodes|, reward)
  {
    hide Select, Backprop, Registry, Conserved, RoundRobin, ChildrenExpanded, DepthCapped, FreshIds;
  }

  lemma RewardIs(cfg: Config, ns: seq<Node>, leaf: nat, input: SimInput)
    requires Registry(ns) && leaf < |ns| && FreshIds(ns, input.branches) && input.branches != []
    ensures Registry(Grown(ns, leaf, input.branches))
    ensures Simulated(cfg, ns, leaf, input).1 ==
            if input.rollout != [] then
              var x := input.rollout[|input.rollout| - 1]; cfg.judge(x.prompt, x.response)
            else LastScore(cfg.judge, Grown(ns, leaf, input.branches), |ns|)
  {
    hide *;
    var grown := Grown(ns, leaf, input.branches);
    GrownRegistry(ns, leaf, input.branches);
    SimulatedReward(cfg, ns, leaf, input);
    RewardOfHistory(cfg.judge, grown, |ns|);
    RewardAfter(cfg.judge, History(grown, Path(grown, |ns|)), input.rollout);
  }

  lemma SimulatedReward(cfg: Config, ns: seq<Node>, leaf: nat, input: SimInput)
    requires Registry(ns) && leaf < |ns| && FreshIds(ns, input.branches) && input.branches != []
    ensures var grown := Grown(ns, leaf, input.branches);
            && Registry(grown) && |ns| < |grown|
            && Simulated(cfg, ns, leaf, input).1 ==
                 Reward(cfg.judge, History(grown, Path(grown, |ns|)) + Dialogue(input.rollout))
  {
    hide Registry, History, Path, FreshIds, Reward, Dialogue;
    GrownRegistry(ns, leaf, input.branches);
  }

  lemma RewardAfter(judge: (string, string) -> real, base: seq<(string, string)>, xs: seq<Exchange>)
    ensures Reward(judge, base + Dialogue(xs)) ==
            if xs == [] then Reward(judge, base) else judge(xs[|xs| - 1].prompt, xs[|xs| - 1].response)
  {
    if xs == [] {
      assert base + Dialogue(xs) == base;
    } else {
      var all := base + Dialogue(xs);
      assert all[|all| - 1] == Dialogue(xs)[|xs| - 1];
    }
  }

  /** What a productive simulation leaves behind: one unvisited node per branch below the selected
      leaf, which is now expanded, and on the first of them the judge's score of the last exchange
      of the rollout, or without a rollout of the last exchange on its path. */
  lemma SimulationAdds(cfg: Config, st: Search, input: SimInput, k: nat)
    requires Ready(cfg, st) && Fits(cfg, st, input) && k < |input.branches|
    requires st.nodes[SelectedLeaf(cfg, st)].depth < cfg.maxDepth
    ensures Registry(SimStep(cfg, st, input).nodes) && |SimStep(cfg, st, input).nodes| == |st.nodes| + |input.branches|
    ensures var ns, leaf, b, next := st.nodes, SelectedLeaf(cfg, st), input.branches[k], SimStep(cfg, st, input);
            var n := next.nodes[|ns| + k];
            && next.nodes[leaf].expanded
            && n.id == b.id && n.parentId == Some(ns[leaf].id) && n.depth == ns[leaf].depth + 1
            && n.strategy == b.strategy && n.prompt == b.prompt && n.response == b.response
            && !n.terminal && !n.expanded
            && n.score == (if k > 0 then 0.0
                           else if input.rollout != [] then
                             var x := input.rollout[|input.rollout| - 1]; cfg.judge(x.prompt, x.response)
                           else LastScore(cfg.judge, next.nodes, |ns|))
  {
    hide SelectedLeaf, SimStep, Simulated, Backprop, Registry, FreshIds, Fits, LastScore;
    var ns, leaf := st.nodes, SelectedLeaf(cfg, st);
    var grown := Grown(ns, leaf, input.branches);
    SimStepIs(cfg, st, input);
    var (scored, reward) := Simulated(cfg, ns, leaf, input);
    BackpropShape(scored, |ns|, reward);
    RewardIs(cfg, ns, leaf, input);
    SameLastScore(cfg.judge, grown, SimStep(cfg, st, input).nodes, |ns|);
  }

  /** Any other simulation costs nothing and only marks the selected leaf: terminal at the depth cap,
      expanded above it when no strategy was sampled. */
  lemma SimulationMarks(cfg: Config, st: Search, input: SimInput)
    requires Ready(cfg, st) && Fits(cfg, st, input)
    requires st.nodes[SelectedLeaf(cfg, st)].depth >= cfg.maxDepth || cfg.branching == 0
    ensures var ns, leaf := st.nodes, SelectedLeaf(cfg, st);
            SimStep(cfg, st, input) ==
              Search(ns[leaf := if ns[leaf].depth >= cfg.maxDepth then ns[leaf].(terminal := true)
                                else ns[leaf].(expanded := true)], st.tokens)
  {
    hide Select, Registry, CountsNest, Inv;
  }
}
