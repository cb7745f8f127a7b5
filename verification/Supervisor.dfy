/** The supervisor's collect, judge and defense nodes, the state reducers between them, and the
    runtime summary of a whole campaign. */
module Supervisor {
  import opened Common
  import opened CanaryMerge

  /** What an attack worker hands in. An empty error counts as none. */
  datatype Attack = Attack(error: Option<string>, result: Option<string>, live: Option<Report>)
  datatype Judged = Judged(result: string, jailbreak: bool, live: Option<Report>)
  datatype JudgeOutput = JudgeOutput(judged: Option<Judged>, error: Option<string>)
  datatype Defense = Defense(validated: bool, live: Option<Report>)
  datatype DefenseOutput = DefenseOutput(record: Defense, error: Option<string>)

  /** The fields of the shared state that these nodes write. */
  datatype State = State(
    attacks: seq<Attack>, judged: seq<Judged>, records: seq<Defense>, errors: seq<string>,
    attackTotal: nat, attackFailures: nat, judgeTotal: nat, judgeFailures: nat,
    defenseTotal: nat, defenseFailures: nat, candidates: nat, live: Report, liveEvents: nat)

  function Start(attacks: seq<Attack>): State {
    State(attacks, [], [], [], 0, 0, 0, 0, 0, 0, 0, None, 0)
  }

  // ---------- what is picked from the outputs of a stage ----------

  function AttackLive(r: Attack): Option<Report> { r.live }
  function JudgedLive(j: Judged): Option<Report> { j.live }
  function DefenseLive(d: Defense): Option<Report> { d.live }

  function ErrorOf(r: Attack): Option<string> { Truthy(r.error) }
  function ResultOf(r: Attack): Option<string> { r.result }
  function VerdictOf(out: JudgeOutput): Option<Judged> { out.judged }
  function JudgeError(out: JudgeOutput): Option<string> { out.error }
  function DefenseError(out: DefenseOutput): Option<string> { out.error }

  /** An attack worker that returned neither an error nor a result. */
  function SilentOf(r: Attack): Option<Attack> {
    if ErrorOf(r).None? && r.result.None? then Some(r) else None
  }

  function FailedOf(r: Attack): Option<Attack> {
    if ErrorOf(r).Some? || r.result.None? then Some(r) else None
  }

  function JailbreakOf(j: Judged): Option<Judged> {
    if j.jailbreak then Some(j) else None
  }

  function ValidOf(d: Defense): Option<Defense> {
    if d.validated then Some(d) else None
  }

  function RecordsOf(outs: seq<DefenseOutput>): (ds: seq<Defense>)
    ensures |ds| == |outs|
  {
    seq(|outs|, i requires 0 <= i < |outs| => outs[i].record)
  }

  lemma NothingKept()
    ensures Kept([], ErrorOf) == [] && Kept([], FailedOf) == [] && Kept([], VerdictOf) == [] && Kept([], JudgeError) == []
    ensures Kept([], DefenseError) == [] && Kept([], ValidOf) == [] && Kept([], DefenseLive) == [] && RecordsOf([]) == []
  {
  }

  /** One pass over a list that keeps what `pick` finds. */
  method Keep<T, U>(xs: seq<T>, pick: T -> Option<U>) returns (out: seq<U>)
    ensures out == Kept(xs, pick)
  {
    out := [];
    for i := 0 to |xs|
      invariant out == Kept(xs[..i], pick)
    {
      hide Kept;
      assert xs[..i + 1] == xs[..i] + [xs[i]];
      KeptSnoc(xs[..i], xs[i], pick);
      var found := pick(xs[i]);
      if found.Some? {
        out := out + [found.value];
      }
    }
    assert xs[..|xs|] == xs;
  }

  // ---------- canary reports ----------

  /** What the worker reports of one stage do to the canary fields of the state. */
  function CanaryAfter(st: State, existing: Report, reports: seq<Report>): State {
    var merged := Merge((if existing.Some? then [existing] else []) + reports);
    if merged.None? then st else st.(live := merged, liveEvents := merged.value.stageCount)
  }

  /** worker_canary_update */
  method WorkerCanaryUpdate<T>(st: State, existing: Report, outputs: seq<T>, live: T -> Option<Report>) returns (after: State)
    ensures after == CanaryAfter(st, existing, Kept(outputs, live))
  {
    var reports := Keep(outputs, live);
    var merged := MergeCanaryReports((if existing.Some? then [existing] else []) + reports);
    after := if merged.None? then st else st.(live := merged, liveEvents := merged.value.stageCount);
  }

  // ---------- collect ----------

  /** The state after collecting the attack workers' outputs. */
  function Collecting(st: State): State {
    CanaryAfter(
      st.(errors := st.errors + Kept(st.attacks, ErrorOf), attackTotal := |st.attacks|,
          attackFailures := |Kept(st.attacks, FailedOf)|), None, Kept(st.attacks, AttackLive))
  }

  method CollectResults(st: State) returns (after: State)
    ensures after == Collecting(st)
  {
    hide Kept;
    var errors: seq<string>, failures: nat := [], 0;
    var rs := st.attacks;
    assert rs[..0] == [];
    NothingKept();
    for i := 0 to |rs|
      invariant errors == Kept(rs[..i], ErrorOf) && failures == |Kept(rs[..i], FailedOf)|
    {
      assert rs[..i + 1] == rs[..i] + [rs[i]];
      KeptSnoc(rs[..i], rs[i], ErrorOf);
      KeptSnoc(rs[..i], rs[i], FailedOf);
      if rs[i].error.Some? && rs[i].error.value != "" {
        errors := errors + [rs[i].error.value];
        failures := failures + 1;
      } else if rs[i].result.None? {
        failures := failures + 1;
      }
    }
    assert rs[..|rs|] == rs;
    after := WorkerCanaryUpdate(
      st.(errors := st.errors + errors, attackTotal := |rs|, attackFailures := failures), None, rs, AttackLive);
  }

  // ---------- judge ----------

  /** What the judge worker answers to an input: anything. */
  method AskJudge(input: string, ghost calls: seq<string>) returns (out: JudgeOutput, ghost called: seq<string>)
    ensures called == calls + [input]
  {
    out, called := *, calls + [input];
  }

  method JudgeAll(inputs: seq<string>)
    returns (judged: seq<Judged>, errors: seq<string>, failures: nat, ghost outs: seq<JudgeOutput>, ghost calls: seq<string>)
    ensures calls == inputs && |outs| == |inputs|
    ensures judged == Kept(outs, VerdictOf) && errors == Kept(outs, JudgeError) && failures == |errors|
  {
    hide Kept;
    NothingKept();
    judged, errors, failures, outs, calls := [], [], 0, [], [];
    for i := 0 to |inputs|
      invariant calls == inputs[..i] && |outs| == i
      invariant judged == Kept(outs, VerdictOf) && errors == Kept(outs, JudgeError) && failures == |errors|
    {
      var out;
      out, calls := AskJudge(inputs[i], calls);
      KeptSnoc(outs, out, VerdictOf);
      KeptSnoc(outs, out, JudgeError);
      outs := outs + [out];
      if out.judged.Some? {
        judged := judged + [out.judged.value];
      }
      if out.error.Some? {
        errors := errors + [out.error.value];
        failures := failures + 1;
      }
    }
  }

  /** The state after judging, given what the judge worker answered. */
  function Judging(st: State, outs: seq<JudgeOutput>): State {
    var judged, errors := Kept(outs, VerdictOf), Kept(outs, JudgeError);
    CanaryAfter(
      st.(judged := st.judged + judged, errors := st.errors + errors, judgeTotal := |outs|, judgeFailures := |errors|),
      st.live, Kept(judged, JudgedLive))
  }

  /** The judge worker is called once for every attack that has a result, in order. */
  method JudgeAllResults(st: State)
    returns (after: State, ghost outs: seq<JudgeOutput>, ghost calls: seq<string>, ghost ix: seq<nat>)
    ensures Picks(st.attacks, calls, ix, (r: Attack) => r.result)
    ensures |outs| == |calls| && after == Judging(st, outs)
  {
    var inputs := Keep(st.attacks, ResultOf);
    ix := KeptPicks(st.attacks, ResultOf);
    var judged, errors, failures;
    judged, errors, failures, outs, calls := JudgeAll(inputs);
    after := WorkerCanaryUpdate(
      st.(judged := st.judged + judged, errors := st.errors + errors, judgeTotal := |inputs|, judgeFailures := failures),
      st.live, judged, JudgedLive);
  }

  // ---------- defense ----------

  /** What the defense worker answers to an input: anything. */
  method Defend(input: Judged, ghost calls: seq<Judged>) returns (out: DefenseOutput, ghost called: seq<Judged>)
    ensures called == calls + [input]
  {
    out, called := *, calls + [input];
  }

  lemma RecordsSnoc(outs: seq<DefenseOutput>, out: DefenseOutput)
    ensures RecordsOf(outs + [out]) == RecordsOf(outs) + [out.record]
  {
  }

  method DefendAll(inputs: seq<Judged>)
    returns (records: seq<Defense>, errors: seq<string>, failures: nat, validated: nat,
             ghost outs: seq<DefenseOutput>, ghost calls: seq<Judged>)
    ensures calls == inputs && |outs| == |inputs|
    ensures records == RecordsOf(outs) && errors == Kept(outs, DefenseError) && failures == |errors|
    ensures validated == |Kept(records, ValidOf)|
  {
    hide RecordsOf, Kept;
    NothingKept();
    records, errors, failures, validated, outs, calls := [], [], 0, 0, [], [];
    for i := 0 to |inputs|
      invariant calls == inputs[..i] && |outs| == i
      invariant records == RecordsOf(outs) && errors == Kept(outs, DefenseError) && failures == |errors|
      invariant validated == |Kept(records, ValidOf)|
    {
      var out;
      out, calls := Defend(inputs[i], calls);
      KeptSnoc(outs, out, DefenseError);
      KeptSnoc(records, out.record, ValidOf);
      RecordsSnoc(outs, out);
      outs := outs + [out];
      records := records + [out.record];
      if out.record.validated {
        validated := validated + 1;
      }
      if out.error.Some? {
        errors := errors + [out.error.value];
        failures := failures + 1;
      }
    }
  }

  /** The state after defense synthesis, given what the defense worker answered. */
  function Defending(st: State, outs: seq<DefenseOutput>): State {
    var records, errors := RecordsOf(outs), Kept(outs, DefenseError);
    CanaryAfter(
      st.(records := st.records + records, errors := st.errors + errors, defenseTotal := |outs|,
          defenseFailures := |errors|, candidates := |Kept(records, ValidOf)|),
      st.live, Kept(records, DefenseLive))
  }

  /** The defense worker is called once for every confirmed jailbreak, in order. */
  method DefenseSynthesis(st: State)
    returns (after: State, ghost outs: seq<DefenseOutput>, ghost calls: seq<Judged>, ghost ix: seq<nat>)
    ensures Picks(st.judged, calls, ix, (j: Judged) => if j.jailbreak then Some(j) else None)
    ensures |outs| == |calls| && after == Defending(st, outs) && after.defenseTotal == |ix|
  {
    var inputs := Keep(st.judged, JailbreakOf);
    ix := KeptPicks(st.judged, JailbreakOf);
    var records, errors, failures, validated;
    records, errors, failures, validated, outs, calls := DefendAll(inputs);
    after := WorkerCanaryUpdate(
      st.(records := st.records + records, errors := st.errors + errors, defenseTotal := |inputs|,
          defenseFailures := failures, candidates := validated),
      st.live, records, DefenseLive);
  }

  // ---------- the campaign ----------

  /** A campaign's final state is reached from fresh state by the three nodes, the last one only
      when a jailbreak was confirmed. */
  predicate Campaign(attacks: seq<Attack>, js: seq<JudgeOutput>, ds: seq<DefenseOutput>, st: State) {
    var judged := Judging(Collecting(Start(attacks)), js);
    && |js| == |Kept(attacks, ResultOf)|
    && |ds| == |Kept(judged.judged, JailbreakOf)|
    && st == if ds == [] then judged else Defending(judged, ds)
  }

  datatype Summary = Summary(degraded: bool, errorCount: nat, errorSamples: seq<string>, candidates: nat, liveEvents: nat)

  function BuildRuntimeSummary(st: State): Summary {
    Summary(st.attackFailures > 0 || st.judgeFailures > 0 || st.defenseFailures > 0,
            |st.errors|, st.errors[..Min(3, |st.errors|)], st.candidates, st.liveEvents)
  }

  /** The nodes in graph order. Judge and defense workers are called with the results and the
      confirmed jailbreaks, each once and in order. */
  method RunGraph(attacks: seq<Attack>)
    returns (st: State, summary: Summary, ghost js: seq<JudgeOutput>, ghost ds: seq<DefenseOutput>,
             ghost judged: seq<string>, ghost defended: seq<Judged>, ghost results: seq<nat>, ghost confirmed: seq<nat>)
    ensures Campaign(attacks, js, ds, st) && summary == BuildRuntimeSummary(st)
    ensures Picks(attacks, judged, results, (r: Attack) => r.result) && |js| == |judged|
    ensures Picks(st.judged, defended, confirmed, (j: Judged) => if j.jailbreak then Some(j) else None) && |ds| == |defended|
  {
    hide Kept, CanaryAfter;
    st := CollectResults(Start(attacks));
    CollectCounts(Start(attacks));
    st, js, judged, results := JudgeAllResults(st);
    PicksKept(attacks, judged, results, ResultOf);
    ds, defended := [], [];
    var jailbreaks := Keep(st.judged, JailbreakOf);
    confirmed := KeptPicks(st.judged, JailbreakOf);
    if jailbreaks != [] {
      ghost var before := st;
      st, ds, defended, confirmed := DefenseSynthesis(st);
      PicksKept(before.judged, defended, confirmed, JailbreakOf);
      DefenseCounts(before, ds);
    }
    summary := BuildRuntimeSummary(st);
  }

  // ---------- laws of a campaign ----------

  lemma CollectCounts(st: State)
    ensures var after := Collecting(st);
            && after.attackTotal == |st.attacks| && after.attackFailures == |Kept(st.attacks, FailedOf)|
            && after.errors == st.errors + Kept(st.attacks, ErrorOf)
            && after.attacks == st.attacks && after.judged == st.judged && after.records == st.records
            && after.defenseTotal == st.defenseTotal && after.judgeTotal == st.judgeTotal
            && after.judgeFailures == st.judgeFailures
            && after.defenseFailures == st.defenseFailures && after.candidates == st.candidates
  {
    hide Merge, Kept;
  }

  lemma JudgeCounts(st: State, outs: seq<JudgeOutput>)
    ensures var after := Judging(st, outs);
            && after.judgeTotal == |outs| && after.judgeFailures == |Kept(outs, JudgeError)|
            && after.errors == st.errors + Kept(outs, JudgeError) && after.judged == st.judged + Kept(outs, VerdictOf)
            && after.attacks == st.attacks && after.records == st.records
            && after.attackTotal == st.attackTotal && after.attackFailures == st.attackFailures
            && after.defenseTotal == st.defenseTotal && after.defenseFailures == st.defenseFailures
            && after.candidates == st.candidates
  {
    hide Merge, Kept;
  }

  lemma DefenseCounts(st: State, outs: seq<DefenseOutput>)
    ensures var after := Defending(st, outs);
            && after.defenseTotal == |outs| && after.defenseFailures == |Kept(outs, DefenseError)|
            && after.errors == st.errors + Kept(outs, DefenseError)
            && after.candidates == |Kept(RecordsOf(outs), ValidOf)|
            && after.attacks == st.attacks && after.judged == st.judged && after.records == st.records + RecordsOf(outs)
            && after.attackTotal == st.attackTotal && after.attackFailures == st.attackFailures
            && after.judgeTotal == st.judgeTotal && after.judgeFailures == st.judgeFailures
  {
    hide Merge, Kept;
  }

  /** All counters and lists of a campaign, in terms of what was kept of the workers' outputs. */
  lemma CampaignCounts(attacks: seq<Attack>, js: seq<JudgeOutput>, ds: seq<DefenseOutput>, st: State)
    requires Campaign(attacks, js, ds, st)
    ensures st.judged == Kept(js, VerdictOf) && st.records == RecordsOf(ds)
    ensures st.errors == Kept(attacks, ErrorOf) + Kept(js, JudgeError) + Kept(ds, DefenseError)
    ensures st.attackTotal == |attacks| && st.attackFailures == |Kept(attacks, FailedOf)|
    ensures st.judgeTotal == |js| == |Kept(attacks, ResultOf)| && st.judgeFailures == |Kept(js, JudgeError)|
    ensures st.defenseTotal == |ds| == |Kept(st.judged, JailbreakOf)| && st.defenseFailures == |Kept(ds, DefenseError)|
    ensures st.candidates == |Kept(st.records, ValidOf)|
  {
    hide Kept, CanaryAfter, Collecting, Judging, Defending, RecordsOf;
    CollectCounts(Start(attacks));
    JudgeCounts(Collecting(Start(attacks)), js);
    DefenseCounts(Judging(Collecting(Start(attacks)), js), ds);
    NothingKept();
    assert [] + Kept(js, VerdictOf) == Kept(js, VerdictOf) && [] + RecordsOf(ds) == RecordsOf(ds);
    assert [] + Kept(attacks, ErrorOf) == Kept(attacks, ErrorOf);
    var errors := Kept(attacks, ErrorOf) + Kept(js, JudgeError);
    assert errors + [] == errors;
  }

  /** A campaign told from the workers' answers alone: which verdicts and records it ends with, which
      verdicts were defended, and whose errors it lists. */
  lemma CampaignTells(attacks: seq<Attack>, js: seq<JudgeOutput>, ds: seq<DefenseOutput>, st: State)
    returns (verdicts: seq<nat>, confirmed: seq<nat>, attackErrors: seq<nat>, judgeErrors: seq<nat>, defenseErrors: seq<nat>)
    requires Campaign(attacks, js, ds, st)
    ensures Picks(js, st.judged, verdicts, (out: JudgeOutput) => out.judged)
    ensures Ascending(confirmed, |st.judged|) && |ds| == st.defenseTotal == |confirmed|
    ensures forall i :: 0 <= i < |st.judged| ==> (i in confirmed <==> st.judged[i].jailbreak)
    ensures |st.records| == |ds| && forall i :: 0 <= i < |ds| ==> st.records[i] == ds[i].record
    ensures var a, j := |attackErrors|, |judgeErrors|;
            && a + j <= |st.errors| && st.judgeFailures == j && st.defenseFailures == |defenseErrors|
            && Picks(attacks, st.errors[..a], attackErrors, (r: Attack) => if r.error == Some("") then None else r.error)
            && Picks(js, st.errors[a..a + j], judgeErrors, (out: JudgeOutput) => out.error)
            && Picks(ds, st.errors[a + j..], defenseErrors, (out: DefenseOutput) => out.error)
  {
    hide Kept, Campaign;
    CampaignCounts(attacks, js, ds, st);
    verdicts := KeptPicks(js, VerdictOf);
    confirmed := KeptPicks(st.judged, JailbreakOf);
    attackErrors := KeptPicks(attacks, ErrorOf);
    judgeErrors := KeptPicks(js, JudgeError);
    defenseErrors := KeptPicks(ds, DefenseError);
    Thirds(Kept(attacks, ErrorOf), Kept(js, JudgeError), Kept(ds, DefenseError));
  }

  lemma Thirds<T>(a: seq<T>, b: seq<T>, c: seq<T>)
    ensures var all := a + b + c;
            all[..|a|] == a && all[|a|..|a| + |b|] == b && all[|a| + |b|..] == c
  {
  }

  lemma {:induction false} FailuresSplit(rs: seq<Attack>)
    ensures |Kept(rs, FailedOf)| == |Kept(rs, ErrorOf)| + |Kept(rs, SilentOf)|
  {
    if rs == [] {
    } else {
      FailuresSplit(rs[..|rs| - 1]);
    }
  }

  /** Every counted failure left an error, except attack workers that returned nothing at all. */
  lemma FailuresAccounted(attacks: seq<Attack>, js: seq<JudgeOutput>, ds: seq<DefenseOutput>, st: State)
    returns (silent: seq<nat>)
    requires Campaign(attacks, js, ds, st)
    ensures Ascending(silent, |attacks|)
    ensures forall i :: 0 <= i < |attacks| ==> (i in silent <==> Silent(attacks[i]))
    ensures st.attackFailures + st.judgeFailures + st.defenseFailures == |st.errors| + |silent|
    ensures st.attackTotal == |attacks| && st.candidates <= st.defenseTotal <= st.judgeTotal <= |attacks|
  {
    hide Kept, Campaign;
    CampaignCounts(attacks, js, ds, st);
    FailuresSplit(attacks);
    silent := KeptPicks(attacks, SilentOf);
  }

  predicate Silent(r: Attack) {
    (r.error.None? || r.error.value == "") && r.result.None?
  }

  /** A run is reported degraded exactly when some stage recorded an error or an attack worker
      failed silently; a run reported as not degraded therefore has no errors. */
  lemma DegradedIff(attacks: seq<Attack>, js: seq<JudgeOutput>, ds: seq<DefenseOutput>, st: State)
    requires Campaign(attacks, js, ds, st)
    ensures var s := BuildRuntimeSummary(st);
            && (s.degraded <==> st.errors != [] || exists i :: 0 <= i < |attacks| && Silent(attacks[i]))
            && s.errorCount == |st.errors| && s.errorSamples <= st.errors && |s.errorSamples| == Min(3, |st.errors|)
  {
    hide Campaign, Silent;
    var silent := FailuresAccounted(attacks, js, ds, st);
    if silent != [] {
      assert silent[0] in silent && Silent(attacks[silent[0]]);
    }
  }

  // ---------- the live canary report ----------

  /** The live canary fields say the same thing. */
  predicate LiveIs(st: State, reports: seq<Report>) {
    && st.live == Merge(reports)
    && st.liveEvents == if st.live.Some? then st.live.value.stageCount else 0
  }

  lemma StageKeepsLive(st: State, base: State, before: seq<Report>, more: seq<Report>)
    requires LiveIs(st, before) && base.live == st.live && base.liveEvents == st.liveEvents
    ensures LiveIs(CanaryAfter(base, st.live, more), before + more)
  {
    hide Combine;
    MergeStaged(before, more);
    if st.live.None? {
      TypedConcat([st.live], more);
      TypedOne(st.live);
      assert [] + more == more && [] + Typed(more) == Typed(more);
    }
    TypedConcat(before, more);
  }

  lemma NothingMerged()
    ensures Merge([]) == None
  {
  }

  /** The report built stage by stage is the merge of every worker's report at once. */
  lemma StagedIsBatch(attacks: seq<Attack>, js: seq<JudgeOutput>, ds: seq<DefenseOutput>, st: State)
    returns (a: seq<Report>, j: seq<Report>, d: seq<Report>, ia: seq<nat>, ij: seq<nat>, id: seq<nat>)
    requires Campaign(attacks, js, ds, st)
    ensures Picks(attacks, a, ia, (r: Attack) => r.live)
    ensures Picks(st.judged, j, ij, (r: Judged) => r.live)
    ensures Picks(st.records, d, id, (r: Defense) => r.live)
    ensures LiveIs(st, a + j + d)
  {
    hide Kept, Merge;
    CampaignCounts(attacks, js, ds, st);
    a, j, d := Kept(attacks, AttackLive), Kept(st.judged, JudgedLive), Kept(st.records, DefenseLive);
    ia := KeptPicks(attacks, AttackLive);
    ij := KeptPicks(st.judged, JudgedLive);
    id := KeptPicks(st.records, DefenseLive);
    LiveThroughout(attacks, js, ds, st);
  }

  lemma LiveThroughout(attacks: seq<Attack>, js: seq<JudgeOutput>, ds: seq<DefenseOutput>, st: State)
    requires Campaign(attacks, js, ds, st)
    ensures LiveIs(st, Kept(attacks, AttackLive) + Kept(Kept(js, VerdictOf), JudgedLive) + Kept(RecordsOf(ds), DefenseLive))
  {
    hide Merge, Kept, LiveIs, RecordsOf;
    var s0 := Start(attacks);
    var a, j, d := Kept(attacks, AttackLive), Kept(Kept(js, VerdictOf), JudgedLive), Kept(RecordsOf(ds), DefenseLive);
    NothingLive(attacks);
    var b0 := s0.(errors := s0.errors + Kept(attacks, ErrorOf), attackTotal := |attacks|, attackFailures := |Kept(attacks, FailedOf)|);
    StageKeepsLive(s0, b0, [], a);
    assert [] + a == a;
    var s1 := Collecting(s0);
    var b1 := s1.(judged := s1.judged + Kept(js, VerdictOf), errors := s1.errors + Kept(js, JudgeError),
                  judgeTotal := |js|, judgeFailures := |Kept(js, JudgeError)|);
    StageKeepsLive(s1, b1, a, j);
    var s2 := Judging(s1, js);
    if ds == [] {
      NothingKept();
      assert a + j + [] == a + j;
    } else {
      var b2 := s2.(records := s2.records + RecordsOf(ds), errors := s2.errors + Kept(ds, DefenseError),
                    defenseTotal := |ds|, defenseFailures := |Kept(ds, DefenseError)|, candidates := |Kept(RecordsOf(ds), ValidOf)|);
      StageKeepsLive(s2, b2, a + j, d);
    }
  }

  lemma NothingLive(attacks: seq<Attack>)
    ensures LiveIs(Start(attacks), [])
  {
    NothingMerged();
  }
}
