/** CrescendoAttack.run: turns with bounded backtracking, the escalation level, the replayed
    history, and the narrative policy driven by the recorded turns. */
module Crescendo {
  import opened Common
  import N = NarrativePolicy

  datatype Settings = Settings(
    maxTurns: nat, backtrackLimit: int, escalationThreshold: real, successThreshold: real,
    dryRun: bool, policy: Option<N.Policy>,
    judge: (string, string) -> real, refusalSignal: string -> Option<string>)

  datatype Turn = Turn(
    number: nat, level: nat, prompt: string, response: string, score: real, backtracked: bool, attempts: nat)

  predicate Escalated(s: Settings, score: real) {
    score >= s.escalationThreshold
  }

  // ---------- what a transcript is ----------

  function EscalatedCount(s: Settings, turns: seq<Turn>): nat {
    if turns == [] then 0
    else EscalatedCount(s, turns[..|turns| - 1]) + if Escalated(s, turns[|turns| - 1].score) then 1 else 0
  }

  /** The exchanges that stay in the conversation: those of the escalated turns. */
  function HistoryOf(s: Settings, turns: seq<Turn>): seq<(string, string)> {
    if turns == [] then []
    else
      var t := turns[|turns| - 1];
      HistoryOf(s, turns[..|turns| - 1]) + if Escalated(s, t.score) then [(t.prompt, t.response)] else []
  }

  /** One target call per attempt. */
  function CallsOf(turns: seq<Turn>): nat {
    if turns == [] then 0 else CallsOf(turns[..|turns| - 1]) + turns[|turns| - 1].attempts + 1
  }

  function OutcomesOf(s: Settings, turns: seq<Turn>): seq<N.Outcome> {
    if turns == [] then []
    else
      var t := turns[|turns| - 1];
      OutcomesOf(s, turns[..|turns| - 1]) + [N.Outcome(t.score, s.refusalSignal(t.response))]
  }

  /** A turn as recorded at position k of a transcript. */
  ghost predicate GoodTurn(s: Settings, turns: seq<Turn>, k: nat)
    requires k < |turns|
  {
    var t := turns[k];
    && t.number == k + 1
    && t.level == Min(5, EscalatedCount(s, turns[..k]))
    && t.score == s.judge(t.prompt, t.response)
    && t.attempts <= s.backtrackLimit && t.backtracked == (t.attempts > 0)
    && (!Escalated(s, t.score) ==> t.attempts == s.backtrackLimit)
  }

  ghost predicate GoodTranscript(s: Settings, turns: seq<Turn>) {
    && |turns| <= s.maxTurns
    && (forall k :: 0 <= k < |turns| ==> GoodTurn(s, turns, k))
    && (forall k :: 0 <= k < |turns| - 1 ==> turns[k].score < s.successThreshold)
  }

  lemma GoodTurnExtends(s: Settings, turns: seq<Turn>, t: Turn, k: nat)
    requires k < |turns| && GoodTurn(s, turns, k)
    ensures GoodTurn(s, turns + [t], k)
  {
    assert (turns + [t])[..k] == turns[..k];
  }

  method Send() returns (reply: string) {
    reply := *;
  }

  /** The attempts at one turn: the first one that escalates is accepted, else the last one the
      backtrack limit allows; a negative limit allows none. */
  method PlayTurn(s: Settings, number: nat, level: nat)
    returns (accepted: Option<Turn>, calls: nat, ghost rejected: seq<real>)
    ensures accepted.Some? <==> s.backtrackLimit >= 0
    ensures accepted.None? ==> calls == 0
    ensures accepted.Some? ==>
      var t := accepted.value;
      && t.number == number && t.level == level && t.score == s.judge(t.prompt, t.response)
      && t.attempts <= s.backtrackLimit && t.backtracked == (t.attempts > 0) && calls == t.attempts + 1
      && (!Escalated(s, t.score) ==> t.attempts == s.backtrackLimit)
      && |rejected| == t.attempts && forall k :: 0 <= k < |rejected| ==> !Escalated(s, rejected[k])
  {
    accepted, calls, rejected := None, 0, [];
    var attempt := 1;
    while attempt < s.backtrackLimit + 2
      invariant 1 <= attempt && (s.backtrackLimit >= 0 ==> attempt <= s.backtrackLimit + 1)
      invariant s.backtrackLimit < 0 ==> attempt == 1
      invariant calls == |rejected| == attempt - 1
      invariant forall k :: 0 <= k < |rejected| ==> !Escalated(s, rejected[k])
      decreases s.backtrackLimit + 2 - attempt
    {
      var message := Send();
      var response := Send();
      calls := calls + 1;
      var score := s.judge(message, response);
      if Escalated(s, score) || attempt > s.backtrackLimit {
        accepted := Some(Turn(number, level, message, response, score, attempt > 1, attempt - 1));
        return;
      }
      rejected := rejected + [score];
      attempt := attempt + 1;
    }
  }

  class Trace {
    var turns: seq<Turn>
    var narrative: Option<N.State>

    constructor ()
      ensures turns == [] && narrative == None
    {
      turns, narrative := [], None;
    }
  }

  lemma TranscriptExtends(s: Settings, turns: seq<Turn>, t: Turn)
    requires GoodTranscript(s, turns) && |turns| < s.maxTurns
    requires forall k :: 0 <= k < |turns| ==> turns[k].score < s.successThreshold
    requires GoodTurn(s, turns + [t], |turns|)
    ensures GoodTranscript(s, turns + [t])
    ensures EscalatedCount(s, turns + [t]) == EscalatedCount(s, turns) + if Escalated(s, t.score) then 1 else 0
    ensures HistoryOf(s, turns + [t]) == HistoryOf(s, turns) + if Escalated(s, t.score) then [(t.prompt, t.response)] else []
    ensures CallsOf(turns + [t]) == CallsOf(turns) + t.attempts + 1
    ensures OutcomesOf(s, turns + [t]) == OutcomesOf(s, turns) + [N.Outcome(t.score, s.refusalSignal(t.response))]
  {
    assert (turns + [t])[..|turns|] == turns;
    forall k | 0 <= k < |turns|
      ensures GoodTurn(s, turns + [t], k)
    {
      GoodTurnExtends(s, turns, t, k);
    }
  }

  lemma PolicyStep(p: N.Policy, os: seq<N.Outcome>, o: N.Outcome)
    ensures N.After(p, os + [o]) == N.Update(p, N.After(p, os), o, N.Recommend(p, N.After(p, os)).strategy)
  {
    assert (os + [o])[..|os|] == os;
  }

  /** The whole attack. The transcript determines everything else the run leaves behind. */
  method Run(s: Settings) returns (trace: Trace, history: seq<(string, string)>, level: nat, calls: nat)
    ensures fresh(trace)
    ensures GoodTranscript(s, trace.turns)
    ensures history == HistoryOf(s, trace.turns) && level == Min(5, EscalatedCount(s, trace.turns))
    ensures calls == CallsOf(trace.turns)
    ensures trace.narrative == match s.policy
                               case None => None
                               case Some(p) => Some(N.After(p, OutcomesOf(s, trace.turns)))
    ensures s.dryRun || s.backtrackLimit < 0 ==> trace.turns == []
    ensures !s.dryRun && s.backtrackLimit >= 0 && |trace.turns| < s.maxTurns ==>
              trace.turns != [] && trace.turns[|trace.turns| - 1].score >= s.successThreshold
  {
    hide N.After, N.Update, N.Recommend, GoodTurn, GoodTranscript, HistoryOf, EscalatedCount, CallsOf, OutcomesOf;
    trace := new Trace();
    history, level, calls := [], 0, 0;
    EmptyTranscript(s);
    var narrative := N.START;
    if s.policy.Some? { StartState(s.policy.value); }
    for turn := 1 to s.maxTurns + 1
      invariant !s.dryRun && s.backtrackLimit >= 0 ==> |trace.turns| == turn - 1
      invariant s.dryRun || s.backtrackLimit < 0 ==> trace.turns == []
      invariant GoodTranscript(s, trace.turns) && trace.narrative == None
      invariant forall k :: 0 <= k < |trace.turns| ==> trace.turns[k].score < s.successThreshold
      invariant history == HistoryOf(s, trace.turns) && level == Min(5, EscalatedCount(s, trace.turns))
      invariant calls == CallsOf(trace.turns)
      invariant s.policy.Some? ==> narrative == N.After(s.policy.value, OutcomesOf(s, trace.turns))
    {
      if s.dryRun { break; }
      var accepted, used;
      ghost var rejected;
      accepted, used, rejected := PlayTurn(s, turn, level);
      if accepted.Some? {
        var t := accepted.value;
        ghost var before := trace.turns;
        assert GoodTurn(s, before + [t], |before|) by { NewTurnGood(s, before, t); }
        TranscriptExtends(s, before, t);
        calls := calls + used;
        if Escalated(s, t.score) {
          history := history + [(t.prompt, t.response)];
          level := Min(level + 1, 5);
        }
        trace.turns := trace.turns + [t];
        if s.policy.Some? {
          var p := s.policy.value;
          var o := N.Outcome(t.score, s.refusalSignal(t.response));
          PolicyStep(p, OutcomesOf(s, before), o);
          narrative := N.Update(p, narrative, o, N.Recommend(p, narrative).strategy);
        }
        if t.score >= s.successThreshold { break; }
      }
    }
    if s.policy.Some? { trace.narrative := Some(narrative); }
  }

  lemma EmptyTranscript(s: Settings)
    ensures GoodTranscript(s, []) && HistoryOf(s, []) == [] && EscalatedCount(s, []) == 0
    ensures CallsOf([]) == 0 && OutcomesOf(s, []) == []
  {
  }

  lemma StartState(p: N.Policy)
    ensures N.After(p, []) == N.START
  {
  }

  lemma NewTurnGood(s: Settings, before: seq<Turn>, t: Turn)
    requires t.number == |before| + 1 && t.level == Min(5, EscalatedCount(s, before))
    requires t.score == s.judge(t.prompt, t.response) && t.attempts <= s.backtrackLimit
    requires t.backtracked == (t.attempts > 0) && (!Escalated(s, t.score) ==> t.attempts == s.backtrackLimit)
    ensures GoodTurn(s, before + [t], |before|)
  {
    assert (before + [t])[..|before|] == before;
  }

  // ---------- consequences for every run ----------

  /** k turns never cost more than k * (limit + 1) target calls. */
  lemma {:induction false} CallsBounded(s: Settings, turns: seq<Turn>)
    requires GoodTranscript(s, turns) && s.backtrackLimit >= 0
    ensures |turns| <= CallsOf(turns) <= |turns| * (s.backtrackLimit + 1)
  {
    if turns == [] {
    } else {
      var n := |turns| - 1;
      PrefixGood(s, turns, n);
      CallsBounded(s, turns[..n]);
      assert GoodTurn(s, turns, n);
      assert (n + 1) * (s.backtrackLimit + 1) == n * (s.backtrackLimit + 1) + (s.backtrackLimit + 1);
    }
  }

  lemma PrefixGood(s: Settings, turns: seq<Turn>, n: nat)
    requires GoodTranscript(s, turns) && n <= |turns|
    ensures GoodTranscript(s, turns[..n])
  {
    forall k | 0 <= k < n
      ensures GoodTurn(s, turns[..n], k)
    {
      assert GoodTurn(s, turns, k);
      assert turns[..n][..k] == turns[..k];
    }
  }

  function WeakTurns(turns: seq<Turn>): nat {
    if turns == [] then 0 else WeakTurns(turns[..|turns| - 1]) + if N.Accepted(turns[|turns| - 1].score) then 0 else 1
  }

  lemma {:induction false} WeakTurnsFail(s: Settings, turns: seq<Turn>)
    ensures N.Failures(OutcomesOf(s, turns)) == WeakTurns(turns)
  {
    if turns == [] {
    } else {
      var before := turns[..|turns| - 1];
      WeakTurnsFail(s, before);
      var os := OutcomesOf(s, turns);
      assert os[..|os| - 1] == OutcomesOf(s, before);
    }
  }

  /** A run with enough turns below the policy's acceptance score ends in the ask phase. */
  lemma WeakRunsReachAsk(s: Settings, turns: seq<Turn>)
    requires s.policy.Some? && WeakTurns(turns) >= 3 * s.policy.value.Limit()
    ensures N.After(s.policy.value, OutcomesOf(s, turns)).phase == N.Ask
  {
    WeakTurnsFail(s, turns);
    N.FailuresForceAsk(s.policy.value, OutcomesOf(s, turns));
  }

  // ---------- what the run leaves behind, turn by turn ----------

  function EscalatedExchange(s: Settings): Turn -> Option<(string, string)> {
    (t: Turn) => if Escalated(s, t.score) then Some((t.prompt, t.response)) else None
  }

  lemma {:induction false} HistoryKept(s: Settings, turns: seq<Turn>)
    ensures HistoryOf(s, turns) == Kept(turns, EscalatedExchange(s)) && |HistoryOf(s, turns)| == EscalatedCount(s, turns)
  {
    if turns == [] {
    } else {
      HistoryKept(s, turns[..|turns| - 1]);
    }
  }

  /** The replayed history holds, in order, the exchanges of exactly the turns that reached the
      escalation threshold, and the level counts them. */
  lemma HistoryTells(s: Settings, turns: seq<Turn>) returns (ix: seq<nat>)
    ensures Picks(turns, HistoryOf(s, turns), ix, (t: Turn) =>
              if t.score >= s.escalationThreshold then Some((t.prompt, t.response)) else None)
    ensures EscalatedCount(s, turns) == |ix|
  {
    hide HistoryOf, EscalatedCount, Kept;
    HistoryKept(s, turns);
    ix := KeptPicks(turns, EscalatedExchange(s));
  }

  /** The policy is told the score and the refusal signal of every recorded turn, in order. */
  lemma {:induction false} OutcomesTell(s: Settings, turns: seq<Turn>)
    ensures |OutcomesOf(s, turns)| == |turns|
    ensures forall k :: 0 <= k < |turns| ==>
              OutcomesOf(s, turns)[k] == N.Outcome(turns[k].score, s.refusalSignal(turns[k].response))
  {
    if turns == [] {
    } else {
      OutcomesTell(s, turns[..|turns| - 1]);
    }
  }

  /** A turn costs one target call and one more for every rejected attempt. */
  lemma {:induction false} CallsCount(turns: seq<Turn>, k: nat, attempts: nat)
    requires k < |turns|
    ensures CallsOf(turns[k := turns[k].(attempts := attempts)]) == CallsOf(turns) - turns[k].attempts + attempts
    ensures (forall i :: 0 <= i < |turns| ==> turns[i].attempts == 0) ==> CallsOf(turns) == |turns|
  {
    var n := |turns| - 1;
    var changed := turns[k := turns[k].(attempts := attempts)];
    if forall i :: 0 <= i < |turns| ==> turns[i].attempts == 0 { OneCallEach(turns); }
    if k < n {
      CallsCount(turns[..n], k, attempts);
      assert changed[..n] == turns[..n][k := changed[k]];
    } else {
      assert changed[..n] == turns[..n];
    }
  }

  lemma {:induction false} OneCallEach(turns: seq<Turn>)
    requires forall i :: 0 <= i < |turns| ==> turns[i].attempts == 0
    ensures CallsOf(turns) == |turns|
  {
    if turns == [] {
    } else {
      OneCallEach(turns[..|turns| - 1]);
    }
  }
}
