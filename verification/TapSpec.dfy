/** The TAP beam search on values: what each level of the tree holds after its two pruning
    stages, what a run is, and the laws of every run. */
module TapSpec {
  import opened Common

  type Id = nat

  datatype Node = Node(
    id: Id, parentId: Option<Id>, depth: nat, prompt: string, response: string, score: real,
    pruned: bool, reason: string)

  datatype Config = Config(
    dryRun: bool, depth: nat, branching: nat, width: nat, successThreshold: real,
    offTopic: string -> bool, judge: (string, string) -> real)

  /** One level: its new nodes, the positions that survived the topic check, the positions kept
      as leaves for the next level (best first), and the position of a jailbreak. */
  datatype Level = Level(nodes: seq<Node>, survivors: seq<nat>, kept: seq<nat>, jailbreak: Option<nat>)

  predicate InRange(ix: seq<nat>, n: nat) {
    forall k :: 0 <= k < |ix| ==> ix[k] < n
  }

  predicate Distinct(ix: seq<nat>) {
    forall k, l :: 0 <= k < l < |ix| ==> ix[k] != ix[l]
  }

  function Pick(ns: seq<Node>, ix: seq<nat>): (out: seq<Node>)
    requires InRange(ix, |ns|)
    ensures |out| == |ix|
    ensures forall k :: 0 <= k < |ix| ==> out[k] == ns[ix[k]]
  {
    seq(|ix|, k requires 0 <= k < |ix| => ns[ix[k]])
  }

  /** Child number b of leaf l. */
  predicate BranchAt(leaves: seq<Node>, nodes: seq<Node>, depth: nat, branching: nat, l: nat, b: nat)
    requires l < |leaves|
  {
    && l * branching + b < |nodes|
    && nodes[l * branching + b].parentId == Some(leaves[l].id) && nodes[l * branching + b].depth == depth
  }

  /** Every leaf got its children, in order, and nothing else was added. */
  ghost predicate Branched(leaves: seq<Node>, nodes: seq<Node>, depth: nat, branching: nat) {
    && |nodes| == |leaves| * branching
    && forall l, b :: 0 <= l < |leaves| && 0 <= b < branching ==> BranchAt(leaves, nodes, depth, branching, l, b)
  }

  /** Positions in the order of a stable sort by descending score. */
  predicate RanksBefore(ns: seq<Node>, i: nat, j: nat)
    requires i < |ns| && j < |ns|
  {
    ns[i].score > ns[j].score || (ns[i].score == ns[j].score && i < j)
  }

  predicate Ranked(ns: seq<Node>, order: seq<nat>)
    requires InRange(order, |ns|)
  {
    forall k, l :: 0 <= k < l < |order| ==> RanksBefore(ns, order[k], order[l])
  }

  /** The survivors of the topic check; what did not survive was never sent to the target. */
  ghost predicate TopicPruned(cfg: Config, lv: Level) {
    && InRange(lv.survivors, |lv.nodes|) && (forall k, l :: 0 <= k < l < |lv.survivors| ==> lv.survivors[k] < lv.survivors[l])
    && forall i :: 0 <= i < |lv.nodes| ==>
         if cfg.offTopic(lv.nodes[i].prompt)
         then i !in lv.survivors && lv.nodes[i].pruned && lv.nodes[i].reason == "off_topic"
              && lv.nodes[i].score == 0.0 && lv.nodes[i].response == ""
         else i in lv.survivors
  }

  predicate Scored(cfg: Config, n: Node) {
    n.score == cfg.judge(n.prompt, n.response)
  }

  /** The level stopped at its first success; nothing was pruned by score. */
  ghost predicate Broken(cfg: Config, lv: Level)
    requires InRange(lv.survivors, |lv.nodes|) && lv.jailbreak.Some?
  {
    && lv.kept == []
    && exists e: nat :: e < |lv.survivors| && lv.survivors[e] == lv.jailbreak.value && BrokenAt(cfg, lv, e)
  }

  ghost predicate BrokenAt(cfg: Config, lv: Level, e: nat)
    requires InRange(lv.survivors, |lv.nodes|) && e < |lv.survivors|
  {
    && (forall k :: 0 <= k < |lv.survivors| ==> !lv.nodes[lv.survivors[k]].pruned)
    && (forall k :: 0 <= k <= e ==> Scored(cfg, lv.nodes[lv.survivors[k]]))
    && (forall k :: 0 <= k < e ==> lv.nodes[lv.survivors[k]].score < cfg.successThreshold)
    && lv.nodes[lv.survivors[e]].score >= cfg.successThreshold
    && (forall k :: e < k < |lv.survivors| ==>
          lv.nodes[lv.survivors[k]].score == 0.0 && lv.nodes[lv.survivors[k]].response == "")
  }

  /** The level was scored in full and cut to the best `width` survivors. */
  ghost predicate Cut(cfg: Config, lv: Level)
    requires InRange(lv.survivors, |lv.nodes|)
  {
    && InRange(lv.kept, |lv.nodes|) && Distinct(lv.kept) && Ranked(lv.nodes, lv.kept)
    && |lv.kept| == Min(cfg.width, |lv.survivors|)
    && (forall k :: 0 <= k < |lv.kept| ==> lv.kept[k] in lv.survivors)
    && (forall k :: 0 <= k < |lv.survivors| ==>
          var n := lv.nodes[lv.survivors[k]];
          Scored(cfg, n) && n.score < cfg.successThreshold
          && (n.pruned <==> lv.survivors[k] !in lv.kept) && (n.pruned ==> n.reason == "low_score"))
    && (forall k, l :: 0 <= k < |lv.kept| && 0 <= l < |lv.survivors| && lv.survivors[l] !in lv.kept ==>
          RanksBefore(lv.nodes, lv.kept[k], lv.survivors[l]))
  }

  const MOCK_RESPONSE := "Mock target response"

  /** A level of a dry run: mock nodes, of which the first `width` are kept. */
  ghost predicate Mocked(cfg: Config, lv: Level) {
    && lv.jailbreak.None? && |lv.survivors| == |lv.nodes| && |lv.kept| == Min(cfg.width, |lv.nodes|)
    && (forall k :: 0 <= k < |lv.survivors| ==> lv.survivors[k] == k)
    && (forall k :: 0 <= k < |lv.kept| ==> lv.kept[k] == k)
    && forall i :: 0 <= i < |lv.nodes| ==>
         && lv.nodes[i].score == 1.0 && lv.nodes[i].response == MOCK_RESPONSE
         && (lv.nodes[i].pruned <==> i >= cfg.width) && (lv.nodes[i].pruned ==> lv.nodes[i].reason == "mock_low_score")
  }

  ghost predicate Pruned(cfg: Config, lv: Level) {
    && TopicPruned(cfg, lv)
    && if lv.jailbreak.Some? then Broken(cfg, lv) else Cut(cfg, lv)
  }

  ghost predicate GoodLevel(cfg: Config, leaves: seq<Node>, depth: nat, lv: Level) {
    && Branched(leaves, lv.nodes, depth, cfg.branching)
    && if cfg.dryRun then Mocked(cfg, lv) else Pruned(cfg, lv)
  }

  function KeptNodes(lv: Level): seq<Node> {
    if InRange(lv.kept, |lv.nodes|) then Pick(lv.nodes, lv.kept) else []
  }

  /** The leaves that level d grows from. */
  function LeavesFor(root: Node, levels: seq<Level>, d: nat): seq<Node>
    requires d <= |levels|
  {
    if d == 0 then [root] else KeptNodes(levels[d - 1])
  }

  /** A dry run never stops early. */
  predicate Stops(cfg: Config, lv: Level) {
    !cfg.dryRun && (lv.jailbreak.Some? || lv.survivors == [])
  }

  function Flat(root: Node, levels: seq<Level>): seq<Node> {
    if levels == [] then [root] else Flat(root, levels[..|levels| - 1]) + levels[|levels| - 1].nodes
  }

  predicate DistinctIds(ns: seq<Node>) {
    forall i, j :: 0 <= i < j < |ns| ==> ns[i].id != ns[j].id
  }

  predicate IsRoot(n: Node) {
    n.parentId.None? && n.depth == 0 && !n.pruned && n.score == 0.0
  }

  ghost predicate LevelOf(cfg: Config, root: Node, levels: seq<Level>, d: nat)
    requires d < |levels|
  {
    GoodLevel(cfg, LeavesFor(root, levels, d), d + 1, levels[d])
  }

  /** The levels so far, none of which but the last may have stopped the search. */
  ghost predicate Growing(cfg: Config, root: Node, levels: seq<Level>) {
    && IsRoot(root) && |levels| <= cfg.depth && DistinctIds(Flat(root, levels))
    && (forall d :: 0 <= d < |levels| ==> LevelOf(cfg, root, levels, d))
    && (forall d :: 0 <= d < |levels| - 1 ==> !Stops(cfg, levels[d]))
  }

  ghost predicate IsRun(cfg: Config, root: Node, levels: seq<Level>) {
    Growing(cfg, root, levels) && (|levels| < cfg.depth ==> levels != [] && Stops(cfg, levels[|levels| - 1]))
  }

  // ---------- size ----------

  /** The most nodes that level d may add. */
  function LevelBound(cfg: Config, d: nat): nat {
    if d == 0 then cfg.branching else cfg.branching * cfg.width
  }

  lemma LeavesFew(cfg: Config, root: Node, levels: seq<Level>, d: nat)
    requires Growing(cfg, root, levels) && d < |levels|
    ensures |LeavesFor(root, levels, d)| <= if d == 0 then 1 else cfg.width
  {
    hide Branched, Flat, Broken, TopicPruned, IsRoot, DistinctIds;
    if d > 0 {
      assert LevelOf(cfg, root, levels, d - 1) && !Stops(cfg, levels[d - 1]);
    }
  }

  lemma LevelFull(cfg: Config, root: Node, levels: seq<Level>, d: nat)
    requires Growing(cfg, root, levels) && d < |levels|
    ensures |levels[d].nodes| == |LeavesFor(root, levels, d)| * cfg.branching
  {
    hide Flat, Mocked, Pruned, IsRoot, DistinctIds, LeavesFor, Stops;
    assert LevelOf(cfg, root, levels, d);
  }

  lemma LevelSize(cfg: Config, root: Node, levels: seq<Level>, d: nat)
    requires Growing(cfg, root, levels) && d < |levels|
    ensures |levels[d].nodes| <= LevelBound(cfg, d)
  {
    hide Growing, LeavesFor;
    LeavesFew(cfg, root, levels, d);
    LevelFull(cfg, root, levels, d);
    Monotone(|LeavesFor(root, levels, d)|, if d == 0 then 1 else cfg.width, cfg.branching);
  }

  lemma {:induction false} SizeBound(cfg: Config, root: Node, levels: seq<Level>, d: nat)
    requires Growing(cfg, root, levels) && d <= |levels|
    ensures |Flat(root, levels[..d])| - 1 <=
            if d == 0 then 0 else cfg.branching + (d - 1) * (cfg.branching * cfg.width)
  {
    if d == 0 {
    } else {
      hide Growing, Stops;
      SizeBound(cfg, root, levels, d - 1);
      LevelSize(cfg, root, levels, d - 1);
      assert levels[..d][..d - 1] == levels[..d - 1];
      AddLevel(d, cfg.branching * cfg.width);
    }
  }

  lemma AddLevel(d: nat, c: nat)
    requires d > 0
    ensures d > 1 ==> (d - 1) * c == (d - 2) * c + c
    ensures d == 1 ==> (d - 1) * c == 0
  {
  }

  /** A whole run adds at most B + (D - 1) * B * W nodes below the root. */
  lemma TreeBounded(cfg: Config, root: Node, levels: seq<Level>)
    requires IsRun(cfg, root, levels) && cfg.depth >= 1
    ensures |Flat(root, levels)| - 1 <= cfg.branching + (cfg.depth - 1) * (cfg.branching * cfg.width)
  {
    var n := |levels|;
    SizeBound(cfg, root, levels, n);
    assert levels[..n] == levels;
    var bw := cfg.branching * cfg.width;
    assert bw >= 0;
    Monotone(n - 1, cfg.depth - 1, bw);
  }

  lemma Monotone(a: nat, b: nat, c: nat)
    requires a <= b
    ensures a * c <= b * c
  {
  }

  // ---------- parents ----------

  ghost predicate ParentAt(ns: seq<Node>, i: nat, p: nat)
    requires i < |ns|
  {
    p < i && ns[i].parentId == Some(ns[p].id) && ns[i].depth == ns[p].depth + 1 && !ns[p].pruned
  }

  ghost predicate HasParent(ns: seq<Node>, i: nat)
    requires i < |ns|
  {
    exists p: nat :: ParentAt(ns, i, p)
  }

  /** A root followed by nodes whose parent is an earlier, unpruned node one level up. */
  ghost predicate Tree(ns: seq<Node>) {
    ns != [] && IsRoot(ns[0]) && DistinctIds(ns) && forall i :: 0 < i < |ns| ==> HasParent(ns, i)
  }

  lemma BranchParent(leaves: seq<Node>, nodes: seq<Node>, depth: nat, branching: nat, i: nat) returns (l: nat)
    requires Branched(leaves, nodes, depth, branching) && i < |nodes|
    ensures l < |leaves| && nodes[i].parentId == Some(leaves[l].id) && nodes[i].depth == depth
  {
    assert |leaves| * branching > 0;
    assert branching > 0;
    l := i / branching;
    var b := i % branching;
    assert l * branching + b == i;
    if l >= |leaves| { Monotone(|leaves|, l, branching); }
    assert BranchAt(leaves, nodes, depth, branching, l, b);
  }

  lemma KeptUnpruned(cfg: Config, leaves: seq<Node>, depth: nat, lv: Level, l: nat)
    requires GoodLevel(cfg, leaves, depth, lv) && lv.jailbreak.None? && l < |lv.kept|
    ensures lv.kept[l] < |lv.nodes| && KeptNodes(lv) == Pick(lv.nodes, lv.kept)
    ensures lv.nodes[lv.kept[l]].depth == depth && !lv.nodes[lv.kept[l]].pruned
  {
    if !cfg.dryRun {
      var s :| 0 <= s < |lv.survivors| && lv.survivors[s] == lv.kept[l];
    }
    var _ := BranchParent(leaves, lv.nodes, depth, cfg.branching, lv.kept[l]);
  }

  /** Where a leaf for level d sits in the flattened tree. */
  lemma LeafPosition(cfg: Config, root: Node, levels: seq<Level>, d: nat, l: nat) returns (p: nat)
    requires Growing(cfg, root, levels) && d < |levels| && l < |LeavesFor(root, levels, d)|
    ensures p < |Flat(root, levels[..d])| && Flat(root, levels[..d])[p] == LeavesFor(root, levels, d)[l]
    ensures LeavesFor(root, levels, d)[l].depth == d && !LeavesFor(root, levels, d)[l].pruned
  {
    hide GoodLevel, Flat, Stops;
    if d == 0 {
      p := 0;
      assert levels[..0] == [];
      RootAlone(root);
    } else {
      var lv := levels[d - 1];
      assert LevelOf(cfg, root, levels, d - 1) && !Stops(cfg, lv);
      FlatNext(root, levels, d);
      NoJailbreak(cfg, LeavesFor(root, levels, d - 1), d, lv);
      KeptUnpruned(cfg, LeavesFor(root, levels, d - 1), d, lv, l);
      p := |Flat(root, levels[..d - 1])| + lv.kept[l];
    }
  }

  lemma NoJailbreak(cfg: Config, leaves: seq<Node>, depth: nat, lv: Level)
    requires GoodLevel(cfg, leaves, depth, lv) && !Stops(cfg, lv)
    ensures lv.jailbreak.None?
  {
  }

  lemma {:induction false} FlatPrefix(root: Node, levels: seq<Level>, d: nat)
    requires d <= |levels|
    ensures Flat(root, levels[..d]) <= Flat(root, levels)
  {
    if d < |levels| {
      FlatPrefix(root, levels[..|levels| - 1], d);
      assert levels[..|levels| - 1][..d] == levels[..d];
    } else {
      assert levels[..d] == levels;
    }
  }

  lemma {:induction false} PrefixParents(cfg: Config, root: Node, levels: seq<Level>, d: nat, i: nat)
    requires Growing(cfg, root, levels) && d <= |levels| && 0 < i < |Flat(root, levels[..d])|
    ensures HasParent(Flat(root, levels[..d]), i)
  {
    hide Growing, Flat, ParentAt;
    if d == 0 {
      assert levels[..0] == [];
      RootAlone(root);
    } else {
      var before := Flat(root, levels[..d - 1]);
      FlatNext(root, levels, d);
      if i < |before| {
        PrefixParents(cfg, root, levels, d - 1, i);
        ParentStays(before, levels[d - 1].nodes, i);
      } else {
        NewParent(cfg, root, levels, d, i - |before|);
      }
    }
  }

  lemma RootAlone(root: Node)
    ensures Flat(root, []) == [root]
  {
  }

  lemma FlatNext(root: Node, levels: seq<Level>, d: nat)
    requires 0 < d <= |levels|
    ensures Flat(root, levels[..d]) == Flat(root, levels[..d - 1]) + levels[d - 1].nodes
  {
    assert levels[..d][..d - 1] == levels[..d - 1];
  }

  lemma ParentStays(ns: seq<Node>, more: seq<Node>, i: nat)
    requires i < |ns| && HasParent(ns, i)
    ensures HasParent(ns + more, i)
  {
    var p: nat :| ParentAt(ns, i, p);
    assert ParentAt(ns + more, i, p);
  }

  /** A node of the last level grows from a leaf that is in the tree. */
  lemma NewParent(cfg: Config, root: Node, levels: seq<Level>, d: nat, i: nat)
    requires Growing(cfg, root, levels) && 0 < d <= |levels| && i < |levels[d - 1].nodes|
    ensures var before := Flat(root, levels[..d - 1]); HasParent(before + levels[d - 1].nodes, |before| + i)
  {
    hide Flat, LeavesFor, Branched, Mocked, Pruned;
    var before := Flat(root, levels[..d - 1]);
    assert LevelOf(cfg, root, levels, d - 1);
    var l := BranchParent(LeavesFor(root, levels, d - 1), levels[d - 1].nodes, d, cfg.branching, i);
    var p := LeafPosition(cfg, root, levels, d - 1, l);
    assert ParentAt(before + levels[d - 1].nodes, |before| + i, p);
  }

  /** Every parent in a run's tree is an unpruned node one level up. */
  lemma RunIsTree(cfg: Config, root: Node, levels: seq<Level>)
    requires Growing(cfg, root, levels)
    ensures Tree(Flat(root, levels))
  {
    assert levels[..|levels|] == levels;
    FlatPrefix(root, levels, 0);
    assert Flat(root, levels[..0]) == [root];
    forall i | 0 < i < |Flat(root, levels)|
      ensures HasParent(Flat(root, levels), i)
    {
      PrefixParents(cfg, root, levels, |levels|, i);
    }
  }

  /** No kept leaf scores below a sibling that was pruned for its score. */
  lemma KeptScoreHighest(cfg: Config, root: Node, levels: seq<Level>, d: nat, i: nat, j: nat)
    requires Growing(cfg, root, levels) && d < |levels| && i < |levels[d].nodes| && j < |levels[d].nodes|
    requires i in levels[d].kept && levels[d].nodes[j].pruned && levels[d].nodes[j].reason == "low_score"
    ensures levels[d].nodes[i].score >= levels[d].nodes[j].score
    ensures !levels[d].nodes[i].pruned
  {
    var lv := levels[d];
    assert LevelOf(cfg, root, levels, d);
    var k :| 0 <= k < |lv.kept| && lv.kept[k] == i;
    assert "low_score" != "off_topic" by { assert "low_score"[0] != "off_topic"[0]; }
    assert j in lv.survivors;
    var l :| 0 <= l < |lv.survivors| && lv.survivors[l] == j;
    assert RanksBefore(lv.nodes, lv.kept[k], lv.survivors[l]);
  }

  // ---------- the recorded trajectory ----------

  ghost function Parent(ns: seq<Node>, i: nat): (p: nat)
    requires Tree(ns) && 0 < i < |ns|
    ensures ParentAt(ns, i, p)
  {
    assert HasParent(ns, i);
    var p: nat :| ParentAt(ns, i, p);
    p
  }

  lemma ParentUnique(ns: seq<Node>, i: nat, p: nat)
    requires Tree(ns) && 0 < i < |ns| && p < |ns| && ns[i].parentId == Some(ns[p].id)
    ensures p == Parent(ns, i)
  {
    var q := Parent(ns, i);
  }

  /** reconstruct_path: the walk from a node to the root, reversed. */
  ghost function Path(ns: seq<Node>, i: nat): (path: seq<nat>)
    requires Tree(ns) && i < |ns|
    ensures path != [] && path[0] == 0 && path[|path| - 1] == i
    ensures forall k :: 0 <= k < |path| ==> path[k] < |ns|
    ensures forall k :: 0 <= k < |path| ==> ns[path[k]].depth == k
    decreases i
  {
    if i == 0 then [0] else Path(ns, Parent(ns, i)) + [i]
  }

  lemma {:induction false} PathUnpruned(ns: seq<Node>, i: nat, k: nat)
    requires Tree(ns) && i < |ns| && k < |Path(ns, i)| && !ns[i].pruned
    ensures !ns[Path(ns, i)[k]].pruned
    decreases i
  {
    if i > 0 && k < |Path(ns, i)| - 1 { PathUnpruned(ns, Parent(ns, i), k); }
  }

  lemma {:induction false} PathLink(ns: seq<Node>, i: nat, k: nat)
    requires Tree(ns) && i < |ns| && 0 < k < |Path(ns, i)|
    ensures Path(ns, i)[k] > 0 && Path(ns, i)[k - 1] == Parent(ns, Path(ns, i)[k])
    decreases i
  {
    if i > 0 && k < |Path(ns, i)| - 1 { PathLink(ns, Parent(ns, i), k); }
  }

  /** The nodes from which the fallback trajectory is chosen. */
  predicate Candidate(n: Node) {
    n.depth > 0 && !n.pruned && n.score > 0.0
  }

  function CandidatesBelow(ns: seq<Node>, n: nat): (cs: seq<nat>)
    requires n <= |ns|
    ensures Ascending(cs, n) && forall k :: 0 <= k < |cs| ==> Candidate(ns[cs[k]])
  {
    if n == 0 then []
    else CandidatesBelow(ns, n - 1) + if Candidate(ns[n - 1]) then [n - 1] else []
  }

  function ScoreKeys(ns: seq<Node>, cs: seq<nat>): (keys: seq<Key>)
    requires InRange(cs, |ns|)
    ensures |keys| == |cs|
  {
    seq(|cs|, k requires 0 <= k < |cs| => Finite(ns[cs[k]].score))
  }

  /** The jailbreak if there is one, else the first best-scored candidate, else nothing. */
  function BestNode(ns: seq<Node>, jailbreak: Option<nat>): (best: Option<nat>)
    requires jailbreak.Some? ==> jailbreak.value < |ns|
    ensures best.Some? ==> best.value < |ns|
  {
    var cs := CandidatesBelow(ns, |ns|);
    if jailbreak.Some? then jailbreak
    else if cs == [] then None
    else Some(cs[FirstMax(ScoreKeys(ns, cs))])
  }

  /** One recorded turn; its number is the node's depth. */
  datatype Turn = Turn(number: nat, prompt: string, response: string)

  /** populate_best_trajectory: one turn for every node below the root on the best node's path. */
  ghost function Turns(ns: seq<Node>, jailbreak: Option<nat>): (turns: seq<Turn>)
    requires Tree(ns) && (jailbreak.Some? ==> jailbreak.value < |ns|)
  {
    var best := BestNode(ns, jailbreak);
    if best.None? then [] else PathTurns(ns, Path(ns, best.value)[1..])
  }

  function PathTurns(ns: seq<Node>, ix: seq<nat>): (turns: seq<Turn>)
    requires InRange(ix, |ns|)
    ensures |turns| == |ix|
  {
    seq(|ix|, k requires 0 <= k < |ix| => Turn(ns[ix[k]].depth, ns[ix[k]].prompt, ns[ix[k]].response))
  }

  /** The jailbreak's position in the flattened tree. */
  function JailbreakOf(root: Node, levels: seq<Level>): Option<nat> {
    if levels == [] || levels[|levels| - 1].jailbreak.None? then None
    else Some(|Flat(root, levels[..|levels| - 1])| + levels[|levels| - 1].jailbreak.value)
  }

  lemma JailbreakSound(cfg: Config, root: Node, levels: seq<Level>)
    requires IsRun(cfg, root, levels) && JailbreakOf(root, levels).Some?
    ensures JailbreakOf(root, levels).value < |Flat(root, levels)|
    ensures var n := Flat(root, levels)[JailbreakOf(root, levels).value];
            n.score >= cfg.successThreshold && n.score == cfg.judge(n.prompt, n.response) && !n.pruned
  {
    var lv := levels[|levels| - 1];
    assert LevelOf(cfg, root, levels, |levels| - 1);
    var e: nat :| e < |lv.survivors| && lv.survivors[e] == lv.jailbreak.value && BrokenAt(cfg, lv, e);
    assert Flat(root, levels)[JailbreakOf(root, levels).value] == lv.nodes[lv.jailbreak.value];
  }

  /** The recorded turns are the unpruned root path of the reported node, numbered 1..k; a
      reported jailbreak did reach the success threshold. */
  lemma TrajectoryUnpruned(cfg: Config, root: Node, levels: seq<Level>)
    requires IsRun(cfg, root, levels)
    ensures Tree(Flat(root, levels))
    ensures JailbreakOf(root, levels).Some? ==> JailbreakOf(root, levels).value < |Flat(root, levels)|
    ensures var ns, jail := Flat(root, levels), JailbreakOf(root, levels);
            var turns := Turns(ns, jail);
            && (forall k :: 0 <= k < |turns| ==> turns[k].number == k + 1)
            && (BestNode(ns, jail).Some? ==>
                  var path := Path(ns, BestNode(ns, jail).value);
                  && |turns| == |path| - 1 == ns[BestNode(ns, jail).value].depth
                  && (forall k :: 0 <= k < |turns| ==>
                        turns[k].prompt == ns[path[k + 1]].prompt && turns[k].response == ns[path[k + 1]].response)
                  && forall k :: 0 <= k < |path| ==> !ns[path[k]].pruned)
  {
    hide Flat, Tree, JailbreakOf, Growing;
    RunIsTree(cfg, root, levels);
    if JailbreakOf(root, levels).Some? { JailbreakSound(cfg, root, levels); }
    BestUnpruned(Flat(root, levels), JailbreakOf(root, levels));
  }

  lemma BestUnpruned(ns: seq<Node>, jail: Option<nat>)
    requires Tree(ns) && (jail.Some? ==> jail.value < |ns| && !ns[jail.value].pruned)
    ensures var turns := Turns(ns, jail);
            && (forall k :: 0 <= k < |turns| ==> turns[k].number == k + 1)
            && (BestNode(ns, jail).Some? ==>
                  var path := Path(ns, BestNode(ns, jail).value);
                  && |turns| == |path| - 1 == ns[BestNode(ns, jail).value].depth
                  && (forall k :: 0 <= k < |turns| ==>
                        turns[k].prompt == ns[path[k + 1]].prompt && turns[k].response == ns[path[k + 1]].response)
                  && forall k :: 0 <= k < |path| ==> !ns[path[k]].pruned)
  {
    hide Tree, Path, FirstMax;
    var best := BestNode(ns, jail);
    if best.Some? {
      forall k | 0 <= k < |Path(ns, best.value)|
        ensures !ns[Path(ns, best.value)[k]].pruned
      {
        PathUnpruned(ns, best.value, k);
      }
    }
  }

  lemma {:induction false} CandidateListed(ns: seq<Node>, n: nat, j: nat)
    requires j < n <= |ns| && Candidate(ns[j])
    ensures j in CandidatesBelow(ns, n)
  {
    if j < n - 1 { CandidateListed(ns, n - 1, j); }
  }

  /** Without a jailbreak an unpruned scored node below the root is reported, if there is one, and no
      other such node beats it, nor does an earlier one tie with it. */
  lemma BestIsBest(ns: seq<Node>, j: nat)
    requires j < |ns| && ns[j].depth > 0 && !ns[j].pruned && ns[j].score > 0.0
    ensures BestNode(ns, None).Some?
    ensures var best := ns[BestNode(ns, None).value];
            && best.depth > 0 && !best.pruned && best.score >= ns[j].score
            && (j < BestNode(ns, None).value ==> best.score > ns[j].score)
  {
    hide FirstMax, CandidatesBelow;
    var cs := CandidatesBelow(ns, |ns|);
    CandidateListed(ns, |ns|, j);
    var k :| 0 <= k < |cs| && cs[k] == j;
    var keys := ScoreKeys(ns, cs);
    var m := FirstMax(keys);
    assert !keys[m].Below(keys[k]) && (k < m ==> keys[k].Below(keys[m]));
    assert k < m <==> cs[k] < cs[m];
  }

  lemma NoneReported(ns: seq<Node>)
    requires forall j :: 0 <= j < |ns| ==> ns[j].depth == 0 || ns[j].pruned || ns[j].score <= 0.0
    ensures BestNode(ns, None) == None
  {
    hide FirstMax;
    var cs := CandidatesBelow(ns, |ns|);
    if cs != [] {
      FirstCandidate(ns);
      assert false;
    }
  }

  lemma FirstCandidate(ns: seq<Node>)
    requires CandidatesBelow(ns, |ns|) != []
    ensures exists j :: 0 <= j < |ns| && ns[j].depth > 0 && !ns[j].pruned && ns[j].score > 0.0
  {
    assert Candidate(ns[CandidatesBelow(ns, |ns|)[0]]);
  }

  /** Which level ends a search that is not a dry run: the first one with a jailbreak or with every
      prompt off topic, or else the last one that the depth limit allows. */
  lemma SearchEnds(cfg: Config, root: Node, levels: seq<Level>, d: nat)
    requires IsRun(cfg, root, levels) && !cfg.dryRun && d < |levels|
    ensures d < |levels| - 1 ==>
              levels[d].jailbreak.None? && exists i :: 0 <= i < |levels[d].nodes| && !cfg.offTopic(levels[d].nodes[i].prompt)
    ensures d == |levels| - 1 && |levels| < cfg.depth ==>
              levels[d].jailbreak.Some? || forall i :: 0 <= i < |levels[d].nodes| ==> cfg.offTopic(levels[d].nodes[i].prompt)
  {
    hide Branched, Broken, Cut, Mocked, DistinctIds, Flat;
    var lv := levels[d];
    assert LevelOf(cfg, root, levels, d);
    if d < |levels| - 1 {
      assert !Stops(cfg, lv) && lv.survivors[0] in lv.survivors;
    }
  }

  // ---------- nothing beats the reported node ----------

  /** The level and the place of a node below the root. */
  lemma {:induction false} NodePlace(root: Node, levels: seq<Level>, p: nat) returns (d: nat, i: nat)
    requires 0 < p < |Flat(root, levels)|
    ensures d < |levels| && i < |levels[d].nodes| && Flat(root, levels)[p] == levels[d].nodes[i]
  {
    var last := |levels| - 1;
    var before := Flat(root, levels[..last]);
    if p < |before| {
      d, i := NodePlace(root, levels[..last], p);
    } else {
      d, i := last, p - |before|;
    }
  }

  lemma {:induction false} PlaceNode(root: Node, levels: seq<Level>, d: nat, i: nat) returns (p: nat)
    requires d < |levels| && i < |levels[d].nodes|
    ensures 0 < p < |Flat(root, levels)| && Flat(root, levels)[p] == levels[d].nodes[i]
  {
    var last := |levels| - 1;
    FlatPrefix(root, levels, 0);
    if d < last {
      p := PlaceNode(root, levels[..last], d, i);
    } else {
      p := |Flat(root, levels[..last])| + i;
      NonEmptyFlat(root, levels[..last]);
    }
  }

  lemma NonEmptyFlat(root: Node, levels: seq<Level>)
    ensures Flat(root, levels) != []
  {
    FlatPrefix(root, levels, 0);
    assert Flat(root, levels[..0]) == [root];
  }

  /** A scored node of a cut level is matched by a candidate of the same level. */
  lemma LevelCandidate(cfg: Config, leaves: seq<Node>, depth: nat, lv: Level, i: nat) returns (j: nat)
    requires GoodLevel(cfg, leaves, depth, lv) && !cfg.dryRun && lv.jailbreak.None? && cfg.width >= 1 && depth > 0
    requires i < |lv.nodes| && lv.nodes[i].score > 0.0
    ensures j < |lv.nodes| && Candidate(lv.nodes[j]) && lv.nodes[j].score >= lv.nodes[i].score
  {
    assert i in lv.survivors;
    var l :| 0 <= l < |lv.survivors| && lv.survivors[l] == i;
    j := i;
    if i !in lv.kept {
      assert |lv.kept| >= 1;
      assert RanksBefore(lv.nodes, lv.kept[0], lv.survivors[l]);
      j := lv.kept[0];
      KeptUnpruned(cfg, leaves, depth, lv, 0);
    } else {
      var _ := BranchParent(leaves, lv.nodes, depth, cfg.branching, i);
    }
  }

  /** In a run without a jailbreak that keeps at least one leaf a level, no scored node beats the
      reported one, whether it was pruned for its score or not. */
  lemma NothingBeatsReported(cfg: Config, root: Node, levels: seq<Level>, p: nat)
    requires IsRun(cfg, root, levels) && !cfg.dryRun && cfg.width >= 1 && JailbreakOf(root, levels).None?
    requires 0 < p < |Flat(root, levels)| && Flat(root, levels)[p].score > 0.0
    ensures var ns := Flat(root, levels);
            BestNode(ns, None).Some? && ns[BestNode(ns, None).value].score >= ns[p].score
  {
    hide GoodLevel, Flat, BestNode, LeavesFor;
    var d, i := NodePlace(root, levels, p);
    assert LevelOf(cfg, root, levels, d) && (d < |levels| - 1 ==> !Stops(cfg, levels[d]));
    var j := LevelCandidate(cfg, LeavesFor(root, levels, d), d + 1, levels[d], i);
    var q := PlaceNode(root, levels, d, j);
    BestIsBest(Flat(root, levels), q);
  }
}
