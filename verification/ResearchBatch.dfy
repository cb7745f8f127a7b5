/** The resumable research batch: a checkpointed fold over objectives that may die between any
    two of its actions and be started again under the same checkpoint id. */
module ResearchBatch {
  import opened Common

  datatype Objective = Objective(slug: string, text: string, personas: nat)

  /** What one campaign reports: fixed per objective by an oracle. */
  datatype Outcome = Outcome(campaignId: string, asr: real, score: real, confirmed: nat, nearMisses: nat)

  datatype ObjectiveResult = ObjectiveResult(slug: string, outcome: Outcome)

  datatype Checkpoint = Checkpoint(
    id: string, mode: string, lane: Option<string>, objectiveSlugs: seq<string>,
    completed: seq<string>, campaignIds: seq<string>, asrValues: seq<real>, scoreValues: seq<real>,
    results: seq<ObjectiveResult>, confirmedTotal: nat, nearMissTotal: nat, resultTotal: nat)

  datatype Summary = Summary(
    mode: string, lane: Option<string>, objectiveSlugs: seq<string>, campaignIds: seq<string>,
    totalCampaigns: nat, totalResults: nat, confirmed: nat, nearMisses: nat,
    averageAsr: real, averageScore: real, composite: real, results: seq<ObjectiveResult>)

  /** What a caller passes in; `oracle` is the campaign engine. */
  datatype Batch = Batch(
    mode: string, lane: Option<string>, checkpointId: Option<string>, persistent: bool,
    objectives: seq<Objective>, oracle: Objective -> Outcome)

  function Slugs(objectives: seq<Objective>): (slugs: seq<string>)
    ensures |slugs| == |objectives|
    ensures forall k :: 0 <= k < |slugs| ==> slugs[k] == objectives[k].slug
  {
    seq(|objectives|, k requires 0 <= k < |objectives| => objectives[k].slug)
  }

  /** The name a checkpoint is saved under: the given id, else mode and lane. */
  function KeyOf(b: Batch): string {
    match b.checkpointId
    case Some(id) => if id != "" then id else DefaultKey(b)
    case None => DefaultKey(b)
  }

  function DefaultKey(b: Batch): string {
    b.mode + "-" + if b.lane.Some? && b.lane.value != "" then b.lane.value else "default"
  }

  function NewCheckpoint(b: Batch): Checkpoint {
    Checkpoint(KeyOf(b), b.mode, b.lane, Slugs(b.objectives), [], [], [], [], [], 0, 0, 0)
  }

  /** _load_checkpoint */
  function Loaded(b: Batch, files: map<string, Checkpoint>): Checkpoint {
    if b.persistent && b.checkpointId.Some? && b.checkpointId.value in files
       && files[b.checkpointId.value].objectiveSlugs == Slugs(b.objectives)
    then files[b.checkpointId.value] else NewCheckpoint(b)
  }

  // ---------- the fold ----------

  function Record(c: Checkpoint, o: Objective, r: Outcome): Checkpoint {
    c.(completed := c.completed + [o.slug], campaignIds := c.campaignIds + [r.campaignId],
       asrValues := c.asrValues + [r.asr], scoreValues := c.scoreValues + [r.score],
       results := c.results + [ObjectiveResult(o.slug, r)],
       confirmedTotal := c.confirmedTotal + r.confirmed, nearMissTotal := c.nearMissTotal + r.nearMisses,
       resultTotal := c.resultTotal + o.personas)
  }

  function Advance(c: Checkpoint, o: Objective, oracle: Objective -> Outcome): Checkpoint {
    if o.slug in c.completed then c else Record(c, o, oracle(o))
  }

  function Fold(c: Checkpoint, os: seq<Objective>, oracle: Objective -> Outcome): Checkpoint {
    if os == [] then c else Advance(Fold(c, os[..|os| - 1], oracle), os[|os| - 1], oracle)
  }

  function Sum(xs: seq<real>): real {
    if xs == [] then 0.0 else Sum(xs[..|xs| - 1]) + xs[|xs| - 1]
  }

  function Average(xs: seq<real>): real {
    if xs == [] then 0.0 else Sum(xs) / |xs| as real
  }

  function Summarize(c: Checkpoint, b: Batch): Summary {
    var asr, score := Average(c.asrValues), Average(c.scoreValues);
    Summary(b.mode, b.lane, c.completed, c.campaignIds, |b.objectives|, c.resultTotal,
            c.confirmedTotal, c.nearMissTotal, asr, score,
            c.confirmedTotal as real * 10.0 + c.nearMissTotal as real * 2.0 + asr * 5.0 + score, c.results)
  }

  // ---------- one run that may die ----------

  /** The outcome of one process: the files it leaves, its summary if it lived to return one,
      the objectives it executed, and whether it died. */
  datatype Process = Process(files: map<string, Checkpoint>, summary: Option<Summary>, executed: seq<Objective>)

  /** The objectives from position k on, in a process that can still take `life` actions:
      executing an objective, saving the checkpoint, clearing it, and returning. */
  function Continue(b: Batch, files: map<string, Checkpoint>, c: Checkpoint, k: nat, executed: seq<Objective>, life: nat): Process
    requires k <= |b.objectives|
    decreases |b.objectives| - k
  {
    if k == |b.objectives| then
      if life == 0 then Process(files, None, executed)
      else
        var cleared := if b.persistent && b.checkpointId.Some? then files - {b.checkpointId.value} else files;
        Process(cleared, if life == 1 then None else Some(Summarize(c, b)), executed)
    else
      var o := b.objectives[k];
      if o.slug in c.completed then Continue(b, files, c, k + 1, executed, life)
      else if life == 0 then Process(files, None, executed)
      else if life == 1 then Process(files, None, executed + [o])
      else
        var next := Record(c, o, b.oracle(o));
        var saved := if b.persistent then files[next.id := next] else files;
        Continue(b, saved, next, k + 1, executed + [o], life - 2)
  }

  function RunProcess(b: Batch, files: map<string, Checkpoint>, life: nat): Process {
    Continue(b, files, Loaded(b, files), 0, [], life)
  }

  class CheckpointStore {
    var files: map<string, Checkpoint>

    constructor ()
      ensures files == map[]
    {
      files := map[];
    }

    method Load(id: string) returns (c: Option<Checkpoint>)
      ensures c == if id in files then Some(files[id]) else None
    {
      c := if id in files then Some(files[id]) else None;
    }

    method Save(c: Checkpoint)
      modifies this
      ensures files == old(files)[c.id := c]
    {
      files := files[c.id := c];
    }

    method Clear(id: string)
      modifies this
      ensures files == old(files) - {id}
    {
      files := files - {id};
    }
  }

  method LoadCheckpoint(b: Batch, store: CheckpointStore) returns (c: Checkpoint)
    ensures c == Loaded(b, store.files)
  {
    if b.persistent && b.checkpointId.Some? {
      var existing := store.Load(b.checkpointId.value);
      if existing.Some? && existing.value.objectiveSlugs == Slugs(b.objectives) {
        return existing.value;
      }
    }
    c := NewCheckpoint(b);
  }

  /** run_batch in a process that dies after `life` actions. */
  method RunBatch(b: Batch, store: CheckpointStore, life: nat) returns (summary: Option<Summary>, executed: seq<Objective>)
    modifies store
    ensures RunProcess(b, old(store.files), life) == Process(store.files, summary, executed)
  {
    var checkpoint := LoadCheckpoint(b, store);
    var left := life;
    executed := [];
    for k := 0 to |b.objectives|
      invariant Continue(b, store.files, checkpoint, k, executed, left) == RunProcess(b, old(store.files), life)
    {
      var o := b.objectives[k];
      if o.slug in checkpoint.completed { continue; }
      if left == 0 { return None, executed; }
      var r := b.oracle(o);
      executed := executed + [o];
      if left == 1 { return None, executed; }
      checkpoint := Record(checkpoint, o, r);
      if b.persistent { store.Save(checkpoint); }
      left := left - 2;
    }
    if left == 0 { return None, executed; }
    summary := Some(Summarize(checkpoint, b));
    if b.persistent && b.checkpointId.Some? { store.Clear(b.checkpointId.value); }
    if left == 1 { summary := None; }
  }

  // ---------- progress ----------

  /** Checkpoints are saved, found again and cleared under one name. */
  predicate Resumable(b: Batch) {
    b.persistent && b.checkpointId.Some? && b.checkpointId.value != ""
  }

  /** The checkpoint of an uninterrupted run after its first k objectives. */
  function Progress(b: Batch, k: nat): Checkpoint
    requires k <= |b.objectives|
  {
    Fold(NewCheckpoint(b), b.objectives[..k], b.oracle)
  }

  function Done(b: Batch, k: nat): nat
    requires k <= |b.objectives|
  {
    |Progress(b, k).completed|
  }

  lemma ProgressStep(b: Batch, k: nat)
    requires k < |b.objectives|
    ensures Progress(b, k + 1) == Advance(Progress(b, k), b.objectives[k], b.oracle)
  {
    var os := b.objectives[..k + 1];
    assert os[..k] == b.objectives[..k];
  }

  lemma {:induction false} ProgressKeepsName(b: Batch, k: nat)
    requires k <= |b.objectives|
    ensures Progress(b, k).id == KeyOf(b) && Progress(b, k).objectiveSlugs == Slugs(b.objectives)
  {
    if k > 0 {
      ProgressKeepsName(b, k - 1);
      ProgressStep(b, k - 1);
    } else {
      assert b.objectives[..0] == [];
    }
  }

  function Confirmed(rs: seq<ObjectiveResult>): nat {
    if rs == [] then 0 else Confirmed(rs[..|rs| - 1]) + rs[|rs| - 1].outcome.confirmed
  }

  function NearMisses(rs: seq<ObjectiveResult>): nat {
    if rs == [] then 0 else NearMisses(rs[..|rs| - 1]) + rs[|rs| - 1].outcome.nearMisses
  }

  /** The parallel lists and running totals of a checkpoint all tell its list of results. */
  ghost predicate Consistent(c: Checkpoint) {
    && |c.completed| == |c.campaignIds| == |c.asrValues| == |c.scoreValues| == |c.results|
    && (forall i :: 0 <= i < |c.results| ==>
          var r := c.results[i];
          c.completed[i] == r.slug && c.campaignIds[i] == r.outcome.campaignId
          && c.asrValues[i] == r.outcome.asr && c.scoreValues[i] == r.outcome.score)
    && c.confirmedTotal == Confirmed(c.results) && c.nearMissTotal == NearMisses(c.results)
  }

  /** Objective j is the first one with its slug. */
  predicate FirstWithSlug(os: seq<Objective>, j: nat)
    requires j < |os|
  {
    forall i :: 0 <= i < j ==> os[i].slug != os[j].slug
  }

  /** The result kept for a slug is that of the first objective that carries it. */
  ghost predicate ResultOf(b: Batch, k: nat, r: ObjectiveResult)
    requires k <= |b.objectives|
  {
    exists j :: 0 <= j < k && FirstWithSlug(b.objectives, j)
                && r == ObjectiveResult(b.objectives[j].slug, b.oracle(b.objectives[j]))
  }

  lemma ProgressStart(b: Batch)
    ensures Progress(b, 0) == NewCheckpoint(b)
  {
    assert b.objectives[..0] == [];
  }

  lemma RecordConsistent(c: Checkpoint, o: Objective, r: Outcome)
    requires Consistent(c)
    ensures Consistent(Record(c, o, r))
  {
    var d := Record(c, o, r);
    assert d.results[..|c.results|] == c.results;
  }

  lemma {:induction false} ProgressConsistent(b: Batch, k: nat)
    requires k <= |b.objectives|
    ensures Consistent(Progress(b, k))
  {
    if k == 0 {
      assert b.objectives[..0] == [];
    } else {
      hide Consistent, Record, Progress;
      var o := b.objectives[k - 1];
      ProgressConsistent(b, k - 1);
      ProgressStep(b, k - 1);
      RecordConsistent(Progress(b, k - 1), o, b.oracle(o));
    }
  }

  lemma {:induction false} ProgressResults(b: Batch, k: nat, i: nat)
    requires k <= |b.objectives| && i < |Progress(b, k).results|
    ensures ResultOf(b, k, Progress(b, k).results[i])
  {
    hide Progress, Advance, ResultOf;
    ProgressStart(b);
    if k == 0 {
    } else {
      var before, o := Progress(b, k - 1), b.objectives[k - 1];
      ProgressStep(b, k - 1);
      AdvanceLists(before, o, b.oracle);
      if i < |before.results| {
        ProgressResults(b, k - 1, i);
        ResultOfGrows(b, k - 1, before.results[i]);
      } else {
        NewResult(b, k - 1);
      }
    }
  }

  /** What one objective does to the slugs and results of a checkpoint. */
  lemma AdvanceLists(c: Checkpoint, o: Objective, oracle: Objective -> Outcome)
    ensures var d := Advance(c, o, oracle);
            if o.slug in c.completed then d == c
            else d.completed == c.completed + [o.slug]
                 && d.results == c.results + [ObjectiveResult(o.slug, oracle(o))]
  {
  }

  lemma ResultOfGrows(b: Batch, k: nat, r: ObjectiveResult)
    requires k < |b.objectives| && ResultOf(b, k, r)
    ensures ResultOf(b, k + 1, r)
  {
  }

  lemma NewResult(b: Batch, k: nat)
    requires k < |b.objectives| && b.objectives[k].slug !in Progress(b, k).completed
    ensures ResultOf(b, k + 1, ObjectiveResult(b.objectives[k].slug, b.oracle(b.objectives[k])))
  {
    hide Progress;
    forall j | 0 <= j < k
      ensures b.objectives[j].slug != b.objectives[k].slug
    {
      ProgressCovers(b, j, k);
    }
    assert FirstWithSlug(b.objectives, k);
  }

  lemma {:induction false} ProgressDistinct(b: Batch, k: nat, i: nat, j: nat)
    requires k <= |b.objectives| && i < j < |Progress(b, k).completed|
    ensures Progress(b, k).completed[i] != Progress(b, k).completed[j]
  {
    hide Progress, Advance;
    ProgressStart(b);
    if k == 0 {
    } else {
      ProgressStep(b, k - 1);
      AdvanceLists(Progress(b, k - 1), b.objectives[k - 1], b.oracle);
      if j < |Progress(b, k - 1).completed| { ProgressDistinct(b, k - 1, i, j); }
    }
  }

  /** The uninterrupted run executes each distinct slug once and keeps the result of the first
      objective that carries it; every list and total of the checkpoint tells these results. */
  lemma ProgressTellsResults(b: Batch)
    ensures var c := Progress(b, |b.objectives|);
            && Consistent(c)
            && (forall i, j :: 0 <= i < j < |c.completed| ==> c.completed[i] != c.completed[j])
            && (forall i :: 0 <= i < |c.results| ==> ResultOf(b, |b.objectives|, c.results[i]))
            && (forall j :: 0 <= j < |b.objectives| ==> b.objectives[j].slug in c.completed)
  {
    var n := |b.objectives|;
    var c := Progress(b, n);
    ProgressConsistent(b, n);
    forall i, j | 0 <= i < j < |c.completed|
      ensures c.completed[i] != c.completed[j]
    {
      ProgressDistinct(b, n, i, j);
    }
    forall i | 0 <= i < |c.results|
      ensures ResultOf(b, n, c.results[i])
    {
      ProgressResults(b, n, i);
    }
    forall j | 0 <= j < n
      ensures b.objectives[j].slug in c.completed
    {
      ProgressCovers(b, j, n);
    }
  }

  /** Progress only grows: what is completed stays completed, in the same order. */
  lemma {:induction false} ProgressGrows(b: Batch, j: nat, k: nat)
    requires j <= k <= |b.objectives|
    ensures Progress(b, j).completed <= Progress(b, k).completed
    decreases k
  {
    hide Progress;
    if j < k {
      ProgressGrows(b, j, k - 1);
      ProgressStep(b, k - 1);
    }
  }

  lemma {:induction false} ProgressCovers(b: Batch, j: nat, k: nat)
    requires j < k <= |b.objectives|
    ensures b.objectives[j].slug in Progress(b, k).completed
  {
    var before, after := Progress(b, j + 1).completed, Progress(b, k).completed;
    ProgressStep(b, j);
    ProgressGrows(b, j + 1, k);
    var i :| 0 <= i < |before| && before[i] == b.objectives[j].slug;
    assert after[i] == before[i];
  }

  /** A resumed process skips everything its checkpoint has completed. */
  lemma {:induction false} ResumeSkips(b: Batch, files: map<string, Checkpoint>, j: nat, k: nat, executed: seq<Objective>, life: nat)
    requires j <= k <= |b.objectives|
    ensures Continue(b, files, Progress(b, k), j, executed, life) == Continue(b, files, Progress(b, k), k, executed, life)
    decreases k - j
  {
    if j < k {
      ProgressCovers(b, j, k);
      ResumeSkips(b, files, j + 1, k, executed, life);
    }
  }

  // ---------- what one process does ----------

  /** The actions a process needs from position k until everything is saved. */
  function Need(b: Batch, k: nat): nat
    requires k <= |b.objectives|
  {
    ProgressGrows(b, k, |b.objectives|);
    2 * (Done(b, |b.objectives|) - Done(b, k))
  }

  /** The result of a process that found k objectives done: if it dies early, each two actions
      have saved one more objective and an odd last action was an execution whose result is
      lost; if it lives, the checkpoint is cleared and the summary is the uninterrupted one. */
  ghost predicate Continued(b: Batch, files: map<string, Checkpoint>, k: nat, executed: seq<Objective>, life: nat, p: Process, k': nat)
    requires Resumable(b) && k <= |b.objectives|
  {
    var n := |b.objectives|;
    && k <= k' <= n && executed <= p.executed
    && (forall key :: key != b.checkpointId.value ==> (key in p.files <==> key in files) && (key in files ==> p.files[key] == files[key]))
    && (life <= Need(b, k) ==>
          && p.summary.None? && Loaded(b, p.files) == Progress(b, k')
          && Done(b, k') == Done(b, k) + life / 2
          && |p.executed| == |executed| + (life + 1) / 2)
    && (life > Need(b, k) ==>
          && b.checkpointId.value !in p.files
          && |p.executed| == |executed| + Done(b, n) - Done(b, k)
          && p.summary == if life == Need(b, k) + 1 then None else Some(Summarize(Progress(b, n), b)))
  }

  lemma SavedIsLoaded(b: Batch, files: map<string, Checkpoint>, k: nat)
    requires Resumable(b) && k <= |b.objectives|
    ensures Loaded(b, files[Progress(b, k).id := Progress(b, k)]) == Progress(b, k)
    ensures Progress(b, k).id == b.checkpointId.value
  {
    ProgressKeepsName(b, k);
  }

  lemma {:induction false} ContinueOutcome(b: Batch, files: map<string, Checkpoint>, k: nat, executed: seq<Objective>, life: nat)
    returns (k': nat)
    requires Resumable(b) && k <= |b.objectives| && Loaded(b, files) == Progress(b, k)
    ensures Continued(b, files, k, executed, life, Continue(b, files, Progress(b, k), k, executed, life), k')
    decreases |b.objectives| - k
  {
    hide *;
    k' := k;
    if k == |b.objectives| {
      EndOutcome(b, files, executed, life);
    } else {
      var o, c := b.objectives[k], Progress(b, k);
      if o.slug in c.completed {
        SkipStep(b, k);
        k' := ContinueOutcome(b, files, k + 1, executed, life);
        SkipOutcome(b, files, k, executed, life, k');
      } else if life < 2 {
        DeathOutcome(b, files, k, executed, life);
      } else {
        SavedIsLoaded(b, files, k + 1);
        var next := Progress(b, k + 1);
        k' := ContinueOutcome(b, files[next.id := next], k + 1, executed + [o], life - 2);
        SaveOutcome(b, files, k, executed, life, k');
      }
    }
  }

  lemma EndOutcome(b: Batch, files: map<string, Checkpoint>, executed: seq<Objective>, life: nat)
    requires Resumable(b) && Loaded(b, files) == Progress(b, |b.objectives|)
    ensures var n := |b.objectives|;
            Continued(b, files, n, executed, life, Continue(b, files, Progress(b, n), n, executed, life), n)
  {
    hide Progress, Loaded, Summarize;
  }

  lemma SkipStep(b: Batch, k: nat)
    requires k < |b.objectives| && b.objectives[k].slug in Progress(b, k).completed
    ensures Progress(b, k + 1) == Progress(b, k)
  {
    hide Progress;
    ProgressStep(b, k);
  }

  lemma SkipOutcome(b: Batch, files: map<string, Checkpoint>, k: nat, executed: seq<Objective>, life: nat, k': nat)
    requires Resumable(b) && k < |b.objectives| && b.objectives[k].slug in Progress(b, k).completed
    requires Continued(b, files, k + 1, executed, life, Continue(b, files, Progress(b, k + 1), k + 1, executed, life), k')
    ensures Continued(b, files, k, executed, life, Continue(b, files, Progress(b, k), k, executed, life), k')
  {
    hide Progress, Loaded, Summarize;
    SkipStep(b, k);
  }

  lemma DeathOutcome(b: Batch, files: map<string, Checkpoint>, k: nat, executed: seq<Objective>, life: nat)
    requires Resumable(b) && k < |b.objectives| && b.objectives[k].slug !in Progress(b, k).completed && life < 2
    requires Loaded(b, files) == Progress(b, k)
    ensures Continued(b, files, k, executed, life, Continue(b, files, Progress(b, k), k, executed, life), k)
  {
    hide Progress, Loaded, Summarize;
    ProgressStep(b, k);
    ProgressGrows(b, k + 1, |b.objectives|);
  }

  lemma SaveOutcome(b: Batch, files: map<string, Checkpoint>, k: nat, executed: seq<Objective>, life: nat, k': nat)
    requires Resumable(b) && k < |b.objectives| && b.objectives[k].slug !in Progress(b, k).completed && life >= 2
    requires var next := Progress(b, k + 1);
             Continued(b, files[next.id := next], k + 1, executed + [b.objectives[k]], life - 2,
                       Continue(b, files[next.id := next], next, k + 1, executed + [b.objectives[k]], life - 2), k')
    ensures Continued(b, files, k, executed, life, Continue(b, files, Progress(b, k), k, executed, life), k')
  {
    hide Progress, Loaded, Summarize;
    ProgressStep(b, k);
    ProgressKeepsName(b, k + 1);
  }

  /** One process started on files that hold the progress of k objectives. */
  lemma ProcessOutcome(b: Batch, files: map<string, Checkpoint>, k: nat, life: nat) returns (k': nat)
    requires Resumable(b) && k <= |b.objectives| && Loaded(b, files) == Progress(b, k)
    ensures Continued(b, files, k, [], life, RunProcess(b, files, life), k')
  {
    ResumeSkips(b, files, 0, k, [], life);
    k' := ContinueOutcome(b, files, k, [], life);
  }

  // ---------- any number of crashes ----------

  /** Processes started one after another on the same files: the final files, the last one's
      summary, and everything any of them executed. */
  function History(b: Batch, files: map<string, Checkpoint>, lives: seq<nat>): Process {
    if lives == [] then Process(files, None, [])
    else
      var before := History(b, files, lives[..|lives| - 1]);
      var p := RunProcess(b, before.files, lives[|lives| - 1]);
      p.(executed := before.executed + p.executed)
  }

  /** Nothing to resume: no checkpoint under the id, or one of another list of objectives. */
  ghost predicate Fresh(b: Batch, files: map<string, Checkpoint>) {
    Resumable(b) && Loaded(b, files) == NewCheckpoint(b)
  }

  lemma NoFileNoProgress(b: Batch, files: map<string, Checkpoint>)
    requires Resumable(b) && (b.checkpointId.value !in files || Fresh(b, files))
    ensures Loaded(b, files) == Progress(b, 0) && Done(b, 0) == 0
  {
    assert b.objectives[..0] == [];
  }

  /** After any number of processes the files hold the progress of some prefix. */
  lemma {:induction false} HistoryProgress(b: Batch, files: map<string, Checkpoint>, lives: seq<nat>) returns (k: nat)
    requires Fresh(b, files)
    ensures k <= |b.objectives| && Loaded(b, History(b, files, lives).files) == Progress(b, k)
  {
    hide Loaded, Progress;
    if lives == [] {
      NoFileNoProgress(b, files);
      k := 0;
    } else {
      var before, life := lives[..|lives| - 1], lives[|lives| - 1];
      var j := HistoryProgress(b, files, before);
      k := ProcessOutcome(b, History(b, files, before).files, j, life);
      if life > Need(b, j) {
        NoFileNoProgress(b, History(b, files, lives).files);
        k := 0;
      }
    }
  }

  /** However often and wherever a batch is killed and restarted, the summary it finally
      returns is the one that an uninterrupted run returns. */
  lemma ResumedEqualsUninterrupted(b: Batch, files: map<string, Checkpoint>, lives: seq<nat>, life: nat)
    requires Fresh(b, files) && lives != []
    requires History(b, files, lives).summary.Some?
    requires life >= 2 * |b.objectives| + 2
    ensures RunProcess(b, files, life).summary == Some(Summarize(Progress(b, |b.objectives|), b))
    ensures History(b, files, lives).summary == RunProcess(b, files, life).summary
  {
    hide Loaded, Progress, Summarize;
    var before, last := lives[..|lives| - 1], lives[|lives| - 1];
    var j := HistoryProgress(b, files, before);
    var _ := ProcessOutcome(b, History(b, files, before).files, j, last);
    NoFileNoProgress(b, files);
    var _ := ProcessOutcome(b, files, 0, life);
    DoneBound(b, |b.objectives|);
  }

  lemma {:induction false} DoneBound(b: Batch, k: nat)
    requires k <= |b.objectives|
    ensures Done(b, k) <= k
  {
    if k > 0 {
      DoneBound(b, k - 1);
      ProgressStep(b, k - 1);
    } else {
      assert b.objectives[..0] == [];
    }
  }

  // ---------- the books of a history ----------

  /** The distinct slugs of a batch: what an uninterrupted run executes. */
  function Full(b: Batch): nat {
    |Uniq(Slugs(b.objectives))|
  }

  lemma {:induction false} CompletedSlugs(b: Batch, k: nat)
    requires k <= |b.objectives|
    ensures Progress(b, k).completed == Uniq(Slugs(b.objectives)[..k])
  {
    hide Progress, Uniq;
    if k == 0 {
      NothingCompleted(b);
    } else {
      var slugs := Slugs(b.objectives);
      CompletedSlugs(b, k - 1);
      ProgressStep(b, k - 1);
      UniqMembers(slugs[..k - 1], slugs[k - 1]);
      UniqSnoc(slugs[..k - 1], slugs[k - 1]);
      assert slugs[..k] == slugs[..k - 1] + [slugs[k - 1]];
    }
  }

  lemma NothingCompleted(b: Batch)
    ensures Progress(b, 0).completed == Uniq(Slugs(b.objectives)[..0])
  {
    ProgressStart(b);
  }

  lemma DoneIsFull(b: Batch)
    ensures Done(b, |b.objectives|) == Full(b)
  {
    CompletedSlugs(b, |b.objectives|);
    assert Slugs(b.objectives)[..|b.objectives|] == Slugs(b.objectives);
  }

  /** How processes ended, told from the lives alone: those that returned, crashes after the
      checkpoint was cleared, crashes between an execution and its save, crashes elsewhere, and
      the objectives that the checkpoint now holds. */
  datatype Books = Books(returned: nat, late: nat, lost: nat, clean: nat, saved: nat) {
    function Crashes(): nat {
      late + lost + clean
    }

    /** One more process: two actions for every objective still missing, then clear and return. */
    function After(life: nat, full: nat): (after: Books)
      requires saved <= full
      ensures after.saved <= full
    {
      var need := 2 * (full - saved);
      if life <= need then
        this.(saved := saved + life / 2, lost := lost + life % 2, clean := clean + 1 - life % 2)
      else if life == need + 1 then this.(saved := 0, late := late + 1)
      else this.(saved := 0, returned := returned + 1)
    }
  }

  function BooksOf(full: nat, lives: seq<nat>): (books: Books)
    ensures books.saved <= full
  {
    if lives == [] then Books(0, 0, 0, 0, 0)
    else BooksOf(full, lives[..|lives| - 1]).After(lives[|lives| - 1], full)
  }

  lemma OneMoreLife(books: Books, life: nat, full: nat)
    requires books.saved <= full
    ensures var after := books.After(life, full);
            after.returned + after.Crashes() == books.returned + books.Crashes() + 1
  {
  }

  /** Every process either returned or crashed. */
  lemma {:induction false} CrashesOrReturns(full: nat, lives: seq<nat>)
    ensures BooksOf(full, lives).returned + BooksOf(full, lives).Crashes() == |lives|
  {
    hide Books.After;
    if lives == [] {
    } else {
      var n := |lives| - 1;
      CrashesOrReturns(full, lives[..n]);
      OneMoreLife(BooksOf(full, lives[..n]), lives[n], full);
    }
  }

  /** What the books say of a history: its executions, the progress on disk, and its summary. */
  ghost predicate Balanced(b: Batch, lives: seq<nat>, h: Process, k: nat)
  {
    var books := BooksOf(Full(b), lives);
    && k <= |b.objectives| && Loaded(b, h.files) == Progress(b, k) && Done(b, k) == books.saved
    && |h.executed| == (books.returned + books.late) * Full(b) + books.lost + books.saved
  }

  /** The accounting of every history, whatever its processes live through: each clearing of the
      checkpoint stands for one full pass, each crash before a save for one lost execution, and
      the rest is saved. */
  lemma {:induction false} HistoryBalances(b: Batch, files: map<string, Checkpoint>, lives: seq<nat>) returns (k: nat)
    requires Fresh(b, files)
    ensures Balanced(b, lives, History(b, files, lives), k)
  {
    hide Loaded, Progress, Continued, Full, RunProcess;
    if lives == [] {
      NoFileNoProgress(b, files);
      k := 0;
    } else {
      var n := |lives| - 1;
      var j := HistoryBalances(b, files, lives[..n]);
      k := OneMoreProcess(b, History(b, files, lives[..n]).files, j, lives[n]);
      var books := BooksOf(Full(b), lives[..n]);
      OnePass(books.returned + books.late, Full(b));
    }
  }

  lemma OnePass(c: nat, full: nat)
    ensures (c + 1) * full == c * full + full
  {
  }

  /** One process, in terms of the objectives saved before and after it. */
  lemma OneMoreProcess(b: Batch, files: map<string, Checkpoint>, j: nat, life: nat) returns (k: nat)
    requires Resumable(b) && j <= |b.objectives| && Loaded(b, files) == Progress(b, j)
    ensures Done(b, j) <= Full(b) && k <= |b.objectives|
    ensures var p, need := RunProcess(b, files, life), 2 * (Full(b) - Done(b, j));
            && Loaded(b, p.files) == Progress(b, k)
            && Done(b, k) == (if life <= need then Done(b, j) + life / 2 else 0)
            && |p.executed| == (if life <= need then (life + 1) / 2 else Full(b) - Done(b, j))
            && p.summary == if life <= need + 1 then None else Some(Summarize(Progress(b, |b.objectives|), b))
  {
    hide Loaded, Progress, Summarize, RunProcess;
    DoneIsFull(b);
    ProgressGrows(b, j, |b.objectives|);
    k := ProcessOutcome(b, files, j, life);
    if life > Need(b, j) {
      NoFileNoProgress(b, RunProcess(b, files, life).files);
      k := 0;
    }
  }

  /** The summary a history ends with: that of an uninterrupted run if its last process returned. */
  lemma HistorySummary(b: Batch, files: map<string, Checkpoint>, lives: seq<nat>)
    requires Fresh(b, files) && lives != []
    ensures var saved := BooksOf(Full(b), lives[..|lives| - 1]).saved;
            History(b, files, lives).summary ==
              if lives[|lives| - 1] < 2 * (Full(b) - saved) + 2 then None
              else Some(Summarize(Progress(b, |b.objectives|), b))
  {
    hide Loaded, Progress, Summarize, RunProcess, Full;
    var n := |lives| - 1;
    var j := HistoryBalances(b, files, lives[..n]);
    var _ := OneMoreProcess(b, History(b, files, lives[..n]).files, j, lives[n]);
  }

  /** Executions beyond one for every objective saved or returned. */
  ghost function Repeats(b: Batch, files: map<string, Checkpoint>, lives: seq<nat>): int {
    var books := BooksOf(Full(b), lives);
    |History(b, files, lives).executed| - books.returned * Full(b) - books.saved
  }

  /** Exactly when crashes cost at most one repeated objective each: a crash after the checkpoint
      was cleared repeats the whole batch, a crash before a save one objective, any other nothing. */
  lemma RepeatsWithinCrashesIff(b: Batch, files: map<string, Checkpoint>, lives: seq<nat>)
    requires Fresh(b, files)
    ensures var books := BooksOf(Full(b), lives);
            && books.Crashes() == |lives| - books.returned
            && Repeats(b, files, lives) == books.late * Full(b) + books.lost
            && (Repeats(b, files, lives) <= books.Crashes() <==> books.late * (Full(b) - 1) <= books.clean)
  {
    hide Loaded, Progress, Full, BooksOf, History;
    var books := BooksOf(Full(b), lives);
    CrashesOrReturns(Full(b), lives);
    var _ := HistoryBalances(b, files, lives);
    Distribute(books.returned, books.late, Full(b));
  }

  lemma Distribute(returned: nat, late: nat, full: nat)
    ensures (returned + late) * full == returned * full + late * full
    ensures late * (full - 1) == late * full - late
  {
  }

  /** A run in which the one crash costs the whole batch: it falls after the checkpoint is cleared. */
  lemma LateCrashRepeatsAll(b: Batch, files: map<string, Checkpoint>)
    requires Fresh(b, files) && Full(b) >= 2
    ensures var lives := [2 * Full(b) + 1];
            && BooksOf(Full(b), lives).Crashes() == 1 && Repeats(b, files, lives) == Full(b) > 1
  {
    hide Full, Repeats;
    var lives := [2 * Full(b) + 1];
    assert lives[..0] == [];
    assert BooksOf(Full(b), lives) == Books(0, 1, 0, 0, 0);
    RepeatsWithinCrashesIff(b, files, lives);
  }

  /** No process lived long enough to clear the checkpoint. */
  predicate AllCutShort(full: nat, lives: seq<nat>) {
    forall i :: 0 <= i < |lives| ==> CutShort(full, lives, i)
  }

  predicate CutShort(full: nat, lives: seq<nat>, i: nat)
    requires i < |lives|
  {
    lives[i] <= 2 * (full - BooksOf(full, lives[..i]).saved)
  }

  /** The deaths that fell between executing an objective and saving it. */
  function LostResults(lives: seq<nat>): nat {
    if lives == [] then 0 else LostResults(lives[..|lives| - 1]) + lives[|lives| - 1] % 2
  }

  lemma {:induction false} CutShortBooks(full: nat, lives: seq<nat>)
    requires AllCutShort(full, lives)
    ensures var books := BooksOf(full, lives);
            books.returned == 0 && books.late == 0 && books.lost == LostResults(lives) <= |lives|
  {
    if lives == [] {
    } else {
      var n := |lives| - 1;
      var before := lives[..n];
      forall i | 0 <= i < n
        ensures CutShort(full, before, i)
      {
        assert CutShort(full, lives, i);
        assert before[..i] == lives[..i];
      }
      CutShortBooks(full, before);
      assert CutShort(full, lives, n);
    }
  }

  /** Any number of crashes before the checkpoint is cleared, then a process that finishes: the
      summary is the uninterrupted one, and the executions are the distinct objectives plus one
      for every crash that fell between an execution and its save. */
  lemma OneRepeatPerCrash(b: Batch, files: map<string, Checkpoint>, lives: seq<nat>, rest: nat)
    requires Fresh(b, files) && AllCutShort(Full(b), lives) && rest >= 2 * Full(b) + 2
    ensures var h := History(b, files, lives + [rest]);
            && h.summary == Some(Summarize(Progress(b, |b.objectives|), b))
            && |h.executed| == Full(b) + LostResults(lives)
            && LostResults(lives) <= |lives|
  {
    hide Loaded, Progress, Summarize, Full, History;
    var all := lives + [rest];
    assert all[..|lives|] == lives;
    CutShortBooks(Full(b), lives);
    HistorySummary(b, files, all);
    var _ := HistoryBalances(b, files, all);
  }

  /** And while it has not finished: what was executed is what is saved plus the lost results. */
  lemma CrashesOnlyLoseUnsaved(b: Batch, files: map<string, Checkpoint>, lives: seq<nat>) returns (k: nat)
    requires Fresh(b, files) && AllCutShort(Full(b), lives)
    ensures k <= |b.objectives|
    ensures var h := History(b, files, lives);
            && Loaded(b, h.files) == Progress(b, k)
            && |h.executed| == Done(b, k) + LostResults(lives)
  {
    hide Loaded, Progress, Full, History;
    CutShortBooks(Full(b), lives);
    k := HistoryBalances(b, files, lives);
  }

  /** The exact price of one more crash anywhere in a history that is then run to its end: nothing
      if it fell after a save, one repeated objective if it fell before a save, and the whole
      batch again if it fell between clearing the checkpoint and returning. */
  lemma PriceOfOneCrash(b: Batch, files: map<string, Checkpoint>, lives: seq<nat>, life: nat, rest: nat)
    requires Fresh(b, files) && rest >= 2 * Full(b) + 2
    requires History(b, files, lives + [life]).summary.None?
    ensures var need := 2 * (Full(b) - BooksOf(Full(b), lives).saved);
            |History(b, files, lives + [life, rest]).executed| ==
              |History(b, files, lives + [rest]).executed| + if life <= need then life % 2 else Full(b)
    ensures History(b, files, lives + [life, rest]).summary == Some(Summarize(Progress(b, |b.objectives|), b))
  {
    hide Loaded, Progress, Summarize, Full, History;
    var with, without := lives + [life, rest], lives + [rest];
    assert with[..|lives| + 1] == lives + [life] && (lives + [life])[..|lives|] == lives && without[..|lives|] == lives;
    HistorySummary(b, files, lives + [life]);
    HistorySummary(b, files, with);
    var _ := HistoryBalances(b, files, with);
    var _ := HistoryBalances(b, files, without);
    var books := BooksOf(Full(b), lives);
    OnePass(books.returned + books.late, Full(b));
    OnePass(books.returned + books.late + 1, Full(b));
  }

  /** A stored checkpoint is resumed exactly when it lists the same objectives in the same order. */
  lemma ResumesSameList(b: Batch, files: map<string, Checkpoint>)
    requires Resumable(b) && b.checkpointId.value in files
    ensures var stored := files[b.checkpointId.value].objectiveSlugs;
            Loaded(b, files) == if |stored| == |b.objectives|
                                   && (forall k :: 0 <= k < |stored| ==> stored[k] == b.objectives[k].slug)
                                then files[b.checkpointId.value] else NewCheckpoint(b)
  {
    hide NewCheckpoint;
    var stored := files[b.checkpointId.value].objectiveSlugs;
    if |stored| == |b.objectives| && (forall k :: 0 <= k < |stored| ==> stored[k] == b.objectives[k].slug) {
      assert stored == Slugs(b.objectives);
    }
  }

  /** Without a store no process leaves anything behind, and each starts anew. */
  lemma {:induction false} NothingKeptWithoutStore(b: Batch, files: map<string, Checkpoint>, lives: seq<nat>)
    requires !b.persistent
    ensures History(b, files, lives).files == files && Loaded(b, files) == NewCheckpoint(b)
  {
    hide Continue;
    if lives == [] {
    } else {
      var n := |lives| - 1;
      NothingKeptWithoutStore(b, files, lives[..n]);
      KeepsFiles(b, files, NewCheckpoint(b), 0, [], lives[n]);
    }
  }

  lemma {:induction false} KeepsFiles(b: Batch, files: map<string, Checkpoint>, c: Checkpoint, k: nat, executed: seq<Objective>, life: nat)
    requires k <= |b.objectives| && !b.persistent
    ensures Continue(b, files, c, k, executed, life).files == files
    decreases |b.objectives| - k
  {
    if k < |b.objectives| {
      var o := b.objectives[k];
      if o.slug in c.completed {
        KeepsFiles(b, files, c, k + 1, executed, life);
      } else if life >= 2 {
        KeepsFiles(b, files, Record(c, o, b.oracle(o)), k + 1, executed + [o], life - 2);
      }
    }
  }

  // ---------- batches without a name ----------

  /** No process writes under any name but that of its checkpoint. */
  lemma {:induction false} SavesOwnName(b: Batch, files: map<string, Checkpoint>, c: Checkpoint, k: nat, executed: seq<Objective>, life: nat)
    requires k <= |b.objectives|
    ensures var p := Continue(b, files, c, k, executed, life);
            forall id :: id in p.files ==> id == c.id || (id in files && p.files[id] == files[id])
    decreases |b.objectives| - k
  {
    if k < |b.objectives| {
      var o := b.objectives[k];
      if o.slug in c.completed {
        SavesOwnName(b, files, c, k + 1, executed, life);
      } else if life >= 2 {
        var next := Record(c, o, b.oracle(o));
        SavesOwnName(b, if b.persistent then files[next.id := next] else files, next, k + 1, executed + [o], life - 2);
      }
    }
  }

  /** A batch without an id, or with an empty one, saves under its mode and lane and is looked up
      nowhere or under the empty name: whatever processes came before, none has anything to resume. */
  lemma {:induction false} UnnamedNeverResumes(b: Batch, files: map<string, Checkpoint>, lives: seq<nat>)
    requires (b.checkpointId.None? || b.checkpointId.value == "") && "" !in files
    ensures var h := History(b, files, lives);
            && Loaded(b, h.files) == NewCheckpoint(b)
            && forall id :: id in h.files ==>
                 id in files || id == b.mode + "-" + (if b.lane.Some? && b.lane.value != "" then b.lane.value else "default")
  {
    var own := b.mode + "-" + if b.lane.Some? && b.lane.value != "" then b.lane.value else "default";
    assert own[|b.mode|] == '-' && own != "";
    if lives == [] {
    } else {
      hide Continue;
      var n := |lives| - 1;
      var before := History(b, files, lives[..n]);
      UnnamedNeverResumes(b, files, lives[..n]);
      SavesOwnName(b, before.files, NewCheckpoint(b), 0, [], lives[n]);
    }
  }
}
