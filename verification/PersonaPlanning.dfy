/** Spreading the enabled prompting layers of a profile over a batch of personas. */
module PersonaPlanning {
  import opened Common

  datatype Layer = Plain | Distraction | Narrative | Modulation | Rebuttal | Reasoning

  function Name(l: Layer): string {
    match l
    case Plain => "plain_language"
    case Distraction => "strategic_distraction"
    case Narrative => "narrative_embedding"
    case Modulation => "persona_modulation"
    case Rebuttal => "guardrail_rebuttal_resilience"
    case Reasoning => "reasoning_boundary_pressure"
  }

  const ALL_LAYERS: seq<Layer> := [Plain, Distraction, Narrative, Modulation, Rebuttal, Reasoning]

  datatype Profile = Profile(
    plain: bool, distraction: bool, narrative: bool, modulation: bool, rebuttal: bool, reasoning: bool,
    fixtureIds: seq<string>, policy: string)
  {
    predicate On(l: Layer) {
      match l
      case Plain => plain
      case Distraction => distraction
      case Narrative => narrative
      case Modulation => modulation
      case Rebuttal => rebuttal
      case Reasoning => reasoning
    }

    /** The enabled layers in the fixed field order. */
    function Enabled(): (ls: seq<Layer>) {
      EnabledBelow(|ALL_LAYERS|)
    }

    function EnabledBelow(n: nat): (ls: seq<Layer>)
      requires n <= |ALL_LAYERS|
    {
      if n == 0 then [] else EnabledBelow(n - 1) + if On(ALL_LAYERS[n - 1]) then [ALL_LAYERS[n - 1]] else []
    }

    /** The same lineage with other layers enabled. */
    function WithLayers(ls: seq<Layer>): (p: Profile)
      ensures forall l :: p.On(l) <==> l in ls
    {
      Profile(Plain in ls, Distraction in ls, Narrative in ls, Modulation in ls, Rebuttal in ls, Reasoning in ls,
              fixtureIds, policy)
    }

    predicate IsEmpty() {
      Enabled() == []
    }

    lemma {:induction false} EnabledBelowIff(n: nat, l: Layer)
      requires n <= |ALL_LAYERS|
      ensures l in EnabledBelow(n) <==> l in ALL_LAYERS[..n] && On(l)
    {
      if n > 0 {
        EnabledBelowIff(n - 1, l);
        assert ALL_LAYERS[..n] == ALL_LAYERS[..n - 1] + [ALL_LAYERS[n - 1]];
      }
    }

    lemma {:induction false} EnabledBelowDistinct(n: nat)
      requires n <= |ALL_LAYERS|
      ensures NoRepeats(EnabledBelow(n))
    {
      if n > 0 {
        EnabledBelowDistinct(n - 1);
        EnabledBelowIff(n - 1, ALL_LAYERS[n - 1]);
      }
    }

    lemma EnabledIff(l: Layer)
      ensures l in Enabled() <==> On(l)
    {
      EnabledBelowIff(|ALL_LAYERS|, l);
      assert ALL_LAYERS[..|ALL_LAYERS|] == ALL_LAYERS;
      assert l == ALL_LAYERS[0] || l == ALL_LAYERS[1] || l == ALL_LAYERS[2] || l == ALL_LAYERS[3] || l == ALL_LAYERS[4] || l == ALL_LAYERS[5];
    }
  }

  method EnabledLayers(p: Profile) returns (ls: seq<Layer>)
    ensures ls == p.Enabled()
  {
    ls := [];
    for i := 0 to |ALL_LAYERS|
      invariant ls == p.EnabledBelow(i)
    {
      if p.On(ALL_LAYERS[i]) {
        ls := ls + [ALL_LAYERS[i]];
      }
    }
  }

  // ---------- weights ----------

  type Weights = map<string, real>

  function WeightOf(ws: Weights, l: Layer): real {
    if Name(l) in ws then ws[Name(l)] else 1.0
  }

  /** Python's round: to the nearest integer, ties to the even one. */
  function Round(w: real): (r: int)
    ensures -0.5 <= w - r as real <= 0.5
    ensures w - r as real == 0.5 || r as real - w == 0.5 ==> r % 2 == 0
  {
    var f := w.Floor;
    var d := w - f as real;
    if d < 0.5 || (d == 0.5 && f % 2 == 0) then f else f + 1
  }

  function Repeats(ws: Weights, l: Layer): (n: nat)
    ensures n >= 1
  {
    Max(1, Round(WeightOf(ws, l)))
  }

  /** The sort key is the descending weight, then the name. */
  predicate Earlier(ws: Weights, a: Layer, b: Layer) {
    WeightOf(ws, a) > WeightOf(ws, b) || (WeightOf(ws, a) == WeightOf(ws, b) && TextBelow(Name(a), Name(b)))
  }

  function Insert(ws: Weights, l: Layer, ls: seq<Layer>): seq<Layer> {
    if ls == [] || !Earlier(ws, ls[0], l) then [l] + ls else [ls[0]] + Insert(ws, l, ls[1..])
  }

  function SortByWeight(ws: Weights, ls: seq<Layer>): seq<Layer> {
    if ls == [] then [] else Insert(ws, ls[0], SortByWeight(ws, ls[1..]))
  }

  function Times(ls: seq<Layer>, l: Layer): (n: nat) {
    if ls == [] then 0 else (if ls[0] == l then 1 else 0) + Times(ls[1..], l)
  }

  lemma {:induction false} TimesConcat(a: seq<Layer>, b: seq<Layer>, l: Layer)
    ensures Times(a + b, l) == Times(a, l) + Times(b, l)
  {
    if a == [] {
      assert a + b == b;
    } else {
      assert (a + b)[1..] == a[1..] + b;
      TimesConcat(a[1..], b, l);
    }
  }

  lemma {:induction false} TimesPositive(ls: seq<Layer>, l: Layer)
    ensures Times(ls, l) > 0 <==> l in ls
  {
    if ls == [] {
    } else {
      TimesPositive(ls[1..], l);
    }
  }

  lemma {:induction false} InsertAdds(ws: Weights, l: Layer, ls: seq<Layer>, x: Layer)
    ensures Times(Insert(ws, l, ls), x) == Times(ls, x) + if l == x then 1 else 0
  {
    hide Earlier;
    if ls == [] || !Earlier(ws, ls[0], l) {
      assert ([l] + ls)[1..] == ls;
    } else {
      InsertAdds(ws, l, ls[1..], x);
      assert ([ls[0]] + Insert(ws, l, ls[1..]))[1..] == Insert(ws, l, ls[1..]);
    }
  }

  lemma {:induction false} SortPermutes(ws: Weights, ls: seq<Layer>, x: Layer)
    ensures Times(SortByWeight(ws, ls), x) == Times(ls, x)
  {
    if ls == [] {
    } else {
      SortPermutes(ws, ls[1..], x);
      InsertAdds(ws, ls[0], SortByWeight(ws, ls[1..]), x);
    }
  }

  /** Every layer as often as its weight says. */
  function Repeated(ws: Weights, ls: seq<Layer>): seq<Layer> {
    if ls == [] then []
    else Repeated(ws, ls[..|ls| - 1]) + seq(Repeats(ws, ls[|ls| - 1]), _ => ls[|ls| - 1])
  }

  function WeightedSequence(ls: seq<Layer>, ws: Weights): seq<Layer> {
    if ws == map[] then ls else Repeated(ws, SortByWeight(ws, ls))
  }

  method WeightedLayerSequence(ls: seq<Layer>, ws: Weights) returns (weighted: seq<Layer>)
    ensures weighted == WeightedSequence(ls, ws)
  {
    if ws == map[] {
      return ls;
    }
    var sorted := SortByWeight(ws, ls);
    weighted := [];
    for i := 0 to |sorted|
      invariant weighted == Repeated(ws, sorted[..i])
    {
      assert sorted[..i + 1][..i] == sorted[..i];
      weighted := weighted + seq(Repeats(ws, sorted[i]), _ => sorted[i]);
    }
    assert sorted[..|sorted|] == sorted;
    if weighted == [] {
      if ls != [] { SomethingToRepeat(ws, ls); }
      weighted := ls;
    }
  }

  lemma TimesLast(ls: seq<Layer>, l: Layer)
    requires ls != []
    ensures Times(ls, l) == Times(ls[..|ls| - 1], l) + if ls[|ls| - 1] == l then 1 else 0
  {
    var init, last := ls[..|ls| - 1], ls[|ls| - 1];
    assert ls == init + [last];
    TimesConcat(init, [last], l);
  }

  lemma RepeatedLast(ws: Weights, ls: seq<Layer>, l: Layer)
    requires ls != []
    ensures Times(Repeated(ws, ls), l) == Times(Repeated(ws, ls[..|ls| - 1]), l) + if ls[|ls| - 1] == l then Repeats(ws, l) else 0
  {
    hide Repeats, Times;
    var last := ls[|ls| - 1];
    ConstantCounts(Repeats(ws, last), last, l);
    TimesConcat(Repeated(ws, ls[..|ls| - 1]), seq(Repeats(ws, last), _ => last), l);
  }

  lemma Distribute(t: nat, r: nat)
    ensures (t + 1) * r == t * r + r && 0 * r == 0
  {
  }

  lemma {:induction false} RepeatedCounts(ws: Weights, ls: seq<Layer>, l: Layer)
    ensures Times(Repeated(ws, ls), l) == Times(ls, l) * Repeats(ws, l)
  {
    hide Repeats;
    if ls == [] {
      assert Times(ls, l) == 0 && Times(Repeated(ws, ls), l) == 0;
      Distribute(0, Repeats(ws, l));
    } else {
      hide *;
      RepeatedCounts(ws, ls[..|ls| - 1], l);
      RepeatedLast(ws, ls, l);
      TimesLast(ls, l);
      Distribute(Times(ls[..|ls| - 1], l), Repeats(ws, l));
    }
  }

  lemma {:induction false} ConstantCounts(n: nat, last: Layer, l: Layer)
    ensures Times(seq(n, _ => last), l) == if l == last then n else 0
  {
    if n == 0 {
    } else {
      ConstantCounts(n - 1, last, l);
      assert seq(n, _ => last)[1..] == seq(n - 1, _ => last);
    }
  }

  /** Weighting only repeats: each layer occurs max(1, round(weight)) times as often as before. */
  lemma WeightedCounts(ls: seq<Layer>, ws: Weights, l: Layer)
    ensures Times(WeightedSequence(ls, ws), l) ==
            Times(ls, l) * if ws == map[] then 1 else Max(1, Round(if Name(l) in ws then ws[Name(l)] else 1.0))
  {
    if ws != map[] {
      SortPermutes(ws, ls, l);
      RepeatedCounts(ws, SortByWeight(ws, ls), l);
    }
  }

  lemma WeightedMembers(ls: seq<Layer>, ws: Weights, l: Layer)
    ensures l in WeightedSequence(ls, ws) <==> l in ls
  {
    hide WeightedSequence, Round, Times;
    WeightedCounts(ls, ws, l);
    TimesPositive(ls, l);
    TimesPositive(WeightedSequence(ls, ws), l);
  }

  lemma SomethingToRepeat(ws: Weights, ls: seq<Layer>)
    requires ls != []
    ensures Repeated(ws, SortByWeight(ws, ls)) != []
  {
    SortPermutes(ws, ls, ls[0]);
    RepeatedCounts(ws, SortByWeight(ws, ls), ls[0]);
    assert Times(ls, ls[0]) > 0;
  }

  // ---------- the batch ----------

  /** What round-robin dealing of the first n layers puts into bucket j. */
  function Dealt(ls: seq<Layer>, count: nat, j: nat, n: nat): (bucket: seq<Layer>)
    requires j < count && n <= |ls|
  {
    if n == 0 then []
    else Dealt(ls, count, j, n - 1) + if (n - 1) % count == j then [ls[n - 1]] else []
  }

  function Bucket(ls: seq<Layer>, count: nat, j: nat): (bucket: seq<Layer>)
    requires j < count && ls != []
  {
    var dealt := Dealt(ls, count, j, |ls|);
    if dealt == [] then [ls[j % |ls|]] else dealt
  }

  function Same(profile: Option<Profile>, n: nat): seq<Option<Profile>> {
    seq(n, _ => profile)
  }

  /** The profiles of a batch of the given size. */
  function Plan(profile: Option<Profile>, count: int, ws: Weights): (plan: seq<Option<Profile>>)
    ensures |plan| == Max(count, 0)
  {
    if count <= 0 then []
    else if profile.None? || profile.value.IsEmpty() then Same(profile, count)
    else
      var ls := WeightedSequence(profile.value.Enabled(), ws);
      if count == 1 || |ls| <= 1 then Same(profile, count)
      else seq(count, j requires 0 <= j < count => Some(profile.value.WithLayers(Bucket(ls, count, j))))
  }

  /** Deals the layers into fresh buckets and gives every empty bucket one layer. */
  method FillBuckets(ls: seq<Layer>, count: nat) returns (buckets: array<seq<Layer>>)
    requires count > 0 && ls != []
    ensures fresh(buckets) && buckets.Length == count
    ensures forall j :: 0 <= j < count ==> buckets[j] == Bucket(ls, count, j)
  {
    buckets := new seq<Layer>[count](_ => []);
    for i := 0 to |ls|
      invariant forall j :: 0 <= j < count ==> buckets[j] == Dealt(ls, count, j, i)
    {
      buckets[i % count] := buckets[i % count] + [ls[i]];
    }
    for j := 0 to count
      invariant forall k :: 0 <= k < j ==> buckets[k] == Bucket(ls, count, k)
      invariant forall k :: j <= k < count ==> buckets[k] == Dealt(ls, count, k, |ls|)
    {
      if buckets[j] == [] {
        buckets[j] := [ls[j % |ls|]];
      }
    }
  }

  method ProfilesForBatch(profile: Option<Profile>, count: int, ws: Weights) returns (plan: seq<Option<Profile>>)
    ensures plan == Plan(profile, count, ws)
  {
    if count <= 0 {
      return [];
    }
    if profile.None? || profile.value.IsEmpty() {
      return Same(profile, count);
    }
    var enabled := EnabledLayers(profile.value);
    var ls := WeightedLayerSequence(enabled, ws);
    if count == 1 || |ls| <= 1 {
      return Same(profile, count);
    }
    var buckets := FillBuckets(ls, count);
    plan := [];
    for j := 0 to count
      invariant |plan| == j
      invariant forall k :: 0 <= k < j ==> plan[k] == Some(profile.value.WithLayers(Bucket(ls, count, k)))
    {
      plan := plan + [Some(profile.value.WithLayers(buckets[j]))];
    }
  }

  // ---------- coverage of the plan ----------

  lemma {:induction false} DealtIff(ls: seq<Layer>, count: nat, j: nat, n: nat, l: Layer)
    requires j < count && n <= |ls|
    ensures l in Dealt(ls, count, j, n) <==> exists i :: 0 <= i < n && i % count == j && ls[i] == l
  {
    if n == 0 {
    } else {
      DealtIff(ls, count, j, n - 1, l);
    }
  }

  lemma BucketMembers(ls: seq<Layer>, count: nat, j: nat, l: Layer)
    requires j < count && ls != [] && l in Bucket(ls, count, j)
    ensures l in ls
  {
    DealtIff(ls, count, j, |ls|, l);
  }

  /** The position a layer was dealt to. */
  lemma BucketOf(ls: seq<Layer>, count: nat, i: nat)
    requires count > 0 && i < |ls|
    ensures ls[i] in Bucket(ls, count, i % count)
  {
    DealtIff(ls, count, i % count, |ls|, ls[i]);
  }

  /** Some persona of the batch has the layer. */
  predicate SomeoneHas(plan: seq<Option<Profile>>, l: Layer) {
    exists j :: 0 <= j < |plan| && plan[j].Some? && plan[j].value.On(l)
  }

  /** For a non-empty profile and a batch of at least one persona, every persona gets a non-empty
      profile of the same lineage, and together they have exactly the enabled layers. */
  lemma PlanCovers(profile: Profile, count: nat, ws: Weights)
    requires count > 0 && !profile.IsEmpty()
    ensures var plan := Plan(Some(profile), count, ws);
            && (forall j :: 0 <= j < count ==> GoodShare(profile, plan[j]))
            && (forall l :: SomeoneHas(plan, l) <==> profile.On(l))
  {
    var plan, ls := Plan(Some(profile), count, ws), WeightedSequence(profile.Enabled(), ws);
    forall j | 0 <= j < count
      ensures GoodShare(profile, plan[j])
    {
      ShareGood(profile, count, ws, j);
    }
    forall l
      ensures SomeoneHas(plan, l) <==> profile.On(l)
    {
      if profile.On(l) { LayerShared(profile, count, ws, l); }
      if SomeoneHas(plan, l) {
        var j :| 0 <= j < |plan| && plan[j].Some? && plan[j].value.On(l);
        assert GoodShare(profile, plan[j]);
      }
    }
  }

  /** A persona's profile: non-empty, nothing but enabled layers, the same lineage. */
  predicate GoodShare(profile: Profile, share: Option<Profile>) {
    && share.Some? && !share.value.IsEmpty()
    && share.value.fixtureIds == profile.fixtureIds && share.value.policy == profile.policy
    && forall l :: share.value.On(l) ==> profile.On(l)
  }

  lemma ShareGood(profile: Profile, count: nat, ws: Weights, j: nat)
    requires j < count && !profile.IsEmpty()
    ensures GoodShare(profile, Plan(Some(profile), count, ws)[j])
  {
    var ls := WeightedSequence(profile.Enabled(), ws);
    if count > 1 && |ls| > 1 {
      var bucket := Bucket(ls, count, j);
      var share := profile.WithLayers(bucket);
      share.EnabledIff(bucket[0]);
      forall l | share.On(l)
        ensures profile.On(l)
      {
        BucketMembers(ls, count, j, l);
        WeightedMembers(profile.Enabled(), ws, l);
        profile.EnabledIff(l);
      }
    }
  }

  lemma LayerShared(profile: Profile, count: nat, ws: Weights, l: Layer)
    requires count > 0 && !profile.IsEmpty() && profile.On(l)
    ensures SomeoneHas(Plan(Some(profile), count, ws), l)
  {
    var plan, ls := Plan(Some(profile), count, ws), WeightedSequence(profile.Enabled(), ws);
    if count == 1 || |ls| <= 1 {
      assert plan[0] == Some(profile);
    } else {
      profile.EnabledIff(l);
      WeightedMembers(profile.Enabled(), ws, l);
      var i :| 0 <= i < |ls| && ls[i] == l;
      BucketOf(ls, count, i);
      assert plan[i % count].value.On(l);
    }
  }

  lemma DealtApart(ls: seq<Layer>, count: nat, j: nat, k: nat, l: Layer)
    requires NoRepeats(ls) && j < k < count
    ensures !(l in Dealt(ls, count, j, |ls|) && l in Dealt(ls, count, k, |ls|))
  {
    DealtIff(ls, count, j, |ls|, l);
    DealtIff(ls, count, k, |ls|, l);
  }

  lemma BucketDealt(ls: seq<Layer>, count: nat, j: nat)
    requires j < count <= |ls|
    ensures Bucket(ls, count, j) == Dealt(ls, count, j, |ls|)
  {
    assert j % count == j;
    DealtIff(ls, count, j, |ls|, ls[j]);
  }

  /** Without weights a batch no larger than the profile splits it: no layer is given twice. */
  lemma UnweightedPlanSplits(profile: Profile, count: nat, j: nat, k: nat, l: Layer)
    requires j < k < count <= |profile.Enabled()|
    ensures var plan := Plan(Some(profile), count, map[]);
            plan[j].Some? && plan[k].Some? && !(plan[j].value.On(l) && plan[k].value.On(l))
  {
    hide Dealt, Bucket, NoRepeats;
    var ls := profile.Enabled();
    profile.EnabledBelowDistinct(|ALL_LAYERS|);
    BucketDealt(ls, count, j);
    BucketDealt(ls, count, k);
    DealtApart(ls, count, j, k, l);
  }

  // ---------- who gets what ----------

  /** Layers are dealt in turn: persona j gets every layer whose position is j modulo the batch size,
      and a persona beyond the last position one layer more from the front. */
  lemma PlanDeals(profile: Profile, count: nat, ws: Weights, j: nat, l: Layer)
    requires 1 < count && j < count && |WeightedSequence(profile.Enabled(), ws)| > 1
    ensures var ls, share := WeightedSequence(profile.Enabled(), ws), Plan(Some(profile), count, ws)[j];
            && share.Some?
            && (share.value.On(l) <==>
                  if j < |ls| then exists i :: 0 <= i < |ls| && i % count == j && ls[i] == l else ls[j % |ls|] == l)
  {
    var ls := WeightedSequence(profile.Enabled(), ws);
    if profile.IsEmpty() { NothingWeighted(ws, profile); }
    DealtIff(ls, count, j, |ls|, l);
    if j < |ls| {
      DealtIff(ls, count, j, |ls|, ls[j]);
      InTurn(j, count);
    } else {
      NothingDealt(ls, count, j, |ls|);
    }
  }

  lemma InTurn(j: nat, count: nat)
    requires j < count
    ensures j % count == j
  {
  }

  lemma NothingWeighted(ws: Weights, profile: Profile)
    requires profile.IsEmpty()
    ensures WeightedSequence(profile.Enabled(), ws) == []
  {
  }

  lemma {:induction false} NothingDealt(ls: seq<Layer>, count: nat, j: nat, n: nat)
    requires n <= |ls| <= j < count
    ensures Dealt(ls, count, j, n) == []
  {
    if n > 0 {
      NothingDealt(ls, count, j, n - 1);
      InTurn(n - 1, count);
    }
  }
}
