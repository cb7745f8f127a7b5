/** What the summary of a research batch says, told from the objectives and the oracle alone. */
module ResearchSummary {
  import opened Common
  import opened ResearchBatch

  function SumOf<T>(xs: seq<T>, f: T -> real): real {
    if xs == [] then 0.0 else SumOf(xs[..|xs| - 1], f) + f(xs[|xs| - 1])
  }

  lemma SumSnoc<T>(xs: seq<T>, x: T, f: T -> real)
    ensures SumOf(xs + [x], f) == SumOf(xs, f) + f(x)
  {
    assert (xs + [x])[..|xs|] == xs;
  }

  /** A list of values is what a measure gives on a list of things: then their sums agree. */
  lemma {:induction false} SumIsSumOf<T>(values: seq<real>, xs: seq<T>, f: T -> real)
    requires |values| == |xs| && forall i :: 0 <= i < |xs| ==> values[i] == f(xs[i])
    ensures Sum(values) == SumOf(xs, f)
  {
    if xs == [] {
    } else {
      SumIsSumOf(values[..|xs| - 1], xs[..|xs| - 1], f);
    }
  }

  lemma {:induction false} ConfirmedIsSumOf(rs: seq<ObjectiveResult>)
    ensures Confirmed(rs) as real == SumOf(rs, (r: ObjectiveResult) => r.outcome.confirmed as real)
    ensures NearMisses(rs) as real == SumOf(rs, (r: ObjectiveResult) => r.outcome.nearMisses as real)
  {
    if rs == [] {
    } else {
      ConfirmedIsSumOf(rs[..|rs| - 1]);
    }
  }

  /** The objectives a batch executes: the first ones of each slug, in order. */
  ghost predicate Firsts(os: seq<Objective>, ix: seq<nat>, n: nat)
    requires n <= |os|
  {
    Ascending(ix, n) && forall j :: 0 <= j < n ==> (j in ix <==> FirstWithSlug(os, j))
  }

  function Chosen(os: seq<Objective>, ix: seq<nat>): (chosen: seq<Objective>)
    requires forall k :: 0 <= k < |ix| ==> ix[k] < |os|
    ensures |chosen| == |ix| && forall k :: 0 <= k < |ix| ==> chosen[k] == os[ix[k]]
  {
    seq(|ix|, k requires 0 <= k < |ix| => os[ix[k]])
  }

  /** The results and the persona total of a checkpoint are those of the chosen objectives. */
  ghost predicate RecordsChosen(c: Checkpoint, os: seq<Objective>, oracle: Objective -> Outcome) {
    && |c.results| == |os|
    && (forall k :: 0 <= k < |os| ==> c.results[k] == ObjectiveResult(os[k].slug, oracle(os[k])))
    && c.resultTotal as real == SumOf(os, (o: Objective) => o.personas as real)
  }

  lemma CompletedIff(b: Batch, k: nat)
    requires k < |b.objectives|
    ensures b.objectives[k].slug in Progress(b, k).completed <==> !FirstWithSlug(b.objectives, k)
  {
    hide Progress, Uniq;
    var slugs, s := Slugs(b.objectives)[..k], b.objectives[k].slug;
    CompletedSlugs(b, k);
    UniqMembers(slugs, s);
    if !FirstWithSlug(b.objectives, k) {
      var i :| 0 <= i < k && b.objectives[i].slug == s;
      assert slugs[i] == s;
    }
  }

  lemma {:induction false} ProgressChosen(b: Batch, k: nat) returns (ix: seq<nat>)
    requires k <= |b.objectives|
    ensures Firsts(b.objectives, ix, k) && RecordsChosen(Progress(b, k), Chosen(b.objectives, ix), b.oracle)
  {
    hide Progress, FirstWithSlug, RecordsChosen;
    ix := [];
    if k == 0 {
      ProgressStart(b);
      NothingChosen(b);
    } else {
      var before, o := Progress(b, k - 1), b.objectives[k - 1];
      ix := ProgressChosen(b, k - 1);
      ProgressStep(b, k - 1);
      CompletedIff(b, k - 1);
      if FirstWithSlug(b.objectives, k - 1) {
        assert Chosen(b.objectives, ix + [k - 1]) == Chosen(b.objectives, ix) + [o];
        OneMoreChosen(before, Chosen(b.objectives, ix), o, b.oracle);
        ix := ix + [k - 1];
      }
    }
  }

  lemma NothingChosen(b: Batch)
    ensures RecordsChosen(NewCheckpoint(b), Chosen(b.objectives, []), b.oracle)
  {
  }

  lemma OneMoreChosen(c: Checkpoint, os: seq<Objective>, o: Objective, oracle: Objective -> Outcome)
    requires RecordsChosen(c, os, oracle)
    ensures RecordsChosen(Record(c, o, oracle(o)), os + [o], oracle)
  {
    hide SumOf;
    SumSnoc(os, o, (o: Objective) => o.personas as real);
  }

  /** What a summary says: one result for the first objective of every slug, in order, with its slug
      and campaign beside it; totals and averages over these results; the weighted composite; and the
      personas of the objectives that were executed. */
  ghost predicate Tells(b: Batch, s: Summary, ix: seq<nat>) {
    && Firsts(b.objectives, ix, |b.objectives|)
    && s.mode == b.mode && s.lane == b.lane && s.totalCampaigns == |b.objectives|
    && |s.results| == |s.objectiveSlugs| == |s.campaignIds| == |ix|
    && (forall k :: 0 <= k < |ix| ==>
          var o := b.objectives[ix[k]];
          && s.results[k].slug == s.objectiveSlugs[k] == o.slug
          && s.results[k].outcome == b.oracle(o) && s.campaignIds[k] == b.oracle(o).campaignId)
    && s.totalResults as real == SumOf(Chosen(b.objectives, ix), (o: Objective) => o.personas as real)
    && SumsTell(s)
  }

  ghost predicate SumsTell(s: Summary) {
    && s.confirmed as real == SumOf(s.results, (r: ObjectiveResult) => r.outcome.confirmed as real)
    && s.nearMisses as real == SumOf(s.results, (r: ObjectiveResult) => r.outcome.nearMisses as real)
    && s.averageAsr * |s.results| as real == SumOf(s.results, (r: ObjectiveResult) => r.outcome.asr)
    && s.averageScore * |s.results| as real == SumOf(s.results, (r: ObjectiveResult) => r.outcome.score)
    && (s.results == [] ==> s.averageAsr == 0.0 && s.averageScore == 0.0)
    && s.composite == 10.0 * s.confirmed as real + 2.0 * s.nearMisses as real + 5.0 * s.averageAsr + s.averageScore
  }

  lemma AverageTimes(xs: seq<real>)
    ensures Average(xs) * |xs| as real == Sum(xs)
  {
  }

  lemma SummarySums(b: Batch, c: Checkpoint)
    requires Consistent(c)
    ensures SumsTell(Summarize(c, b))
  {
    hide SumOf, Sum, Average, Confirmed, NearMisses;
    ConfirmedIsSumOf(c.results);
    SumIsSumOf(c.asrValues, c.results, (r: ObjectiveResult) => r.outcome.asr);
    SumIsSumOf(c.scoreValues, c.results, (r: ObjectiveResult) => r.outcome.score);
    AverageTimes(c.asrValues);
    AverageTimes(c.scoreValues);
    if c.results == [] { NoAverage(); }
  }

  lemma NoAverage()
    ensures Average([]) == 0.0
  {
  }

  /** The summary that a batch returns in the end, after any crashes and restarts. */
  lemma ReturnedSummaryTells(b: Batch, files: map<string, Checkpoint>, lives: seq<nat>) returns (ix: seq<nat>)
    requires Fresh(b, files) && lives != [] && History(b, files, lives).summary.Some?
    ensures Tells(b, History(b, files, lives).summary.value, ix)
  {
    hide Progress, SumOf, Consistent, SumsTell, Loaded, History, FirstWithSlug;
    var n := |b.objectives|;
    HistorySummary(b, files, lives);
    ix := ProgressChosen(b, n);
    ProgressConsistent(b, n);
    SummarySums(b, Progress(b, n));
    ListsBeside(Progress(b, n));
  }

  lemma ListsBeside(c: Checkpoint)
    requires Consistent(c)
    ensures |c.completed| == |c.campaignIds| == |c.results|
    ensures forall i :: 0 <= i < |c.results| ==>
              c.completed[i] == c.results[i].slug && c.campaignIds[i] == c.results[i].outcome.campaignId
  {
  }
}
